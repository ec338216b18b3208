/** What the beam search over one layer keeps and delivers, on the layer as a value: g gives the neighbour
    list of every node, ds its distance to the query. */
module BeamSearch {
  import opened Queues
  import opened FiniteSets
  import opened BestFirst

  type Layer = seq<seq<nat>>

  ghost predicate IsLayer(g: Layer, ds: seq<real>) {
    |g| == |ds| && forall u, j | 0 <= u < |g| && 0 <= j < |g[u]| :: g[u][j] < |g|
  }

  // ---------------------------------------------------------------- reachability

  ghost predicate IsPath(g: Layer, path: seq<nat>) {
    && |path| > 0 && (forall i | 0 <= i < |path| :: path[i] < |g|)
    && forall i | 0 <= i < |path| - 1 :: path[i + 1] in g[path[i]]
  }

  ghost predicate Reaches(g: Layer, s: nat, t: nat) {
    exists path :: IsPath(g, path) && path[0] == s && path[|path| - 1] == t
  }

  lemma ReachesItself(g: Layer, s: nat)
    requires s < |g|
    ensures Reaches(g, s, s)
  {
    assert IsPath(g, [s]);
    assert [s][0] == s && [s][|[s]| - 1] == s;
  }

  lemma ReachesNext(g: Layer, s: nat, u: nat, v: nat)
    requires Reaches(g, s, u) && u < |g| && v in g[u] && v < |g|
    ensures Reaches(g, s, v)
  {
    var path :| IsPath(g, path) && path[0] == s && path[|path| - 1] == u;
    var longer := path + [v];
    forall i | 0 <= i < |longer| - 1
      ensures longer[i + 1] in g[longer[i]]
    {
      assert i < |path| - 1 ==> path[i + 1] in g[path[i]];
    }
    assert IsPath(g, longer);
  }

  /** A set of nodes that holds s and all neighbours of its members holds everything s reaches. */
  lemma {:induction false} ClosedHoldsReached(g: Layer, closed: set<nat>, path: seq<nat>)
    requires IsPath(g, path) && path[0] in closed
    requires forall u, v | u in closed && u < |g| && v in g[u] :: v in closed
    ensures path[|path| - 1] in closed
  {
    if |path| > 1 {
      var shorter := path[..|path| - 1];
      assert IsPath(g, shorter) by {
        forall i | 0 <= i < |shorter| - 1
          ensures shorter[i + 1] in g[shorter[i]]
        {
          assert path[i + 1] in g[path[i]];
        }
      }
      ClosedHoldsReached(g, closed, shorter);
      assert path[|path| - 2 + 1] in g[path[|path| - 2]];
    }
  }

  // ---------------------------------------------------------------- the search

  /** One search: the layer, the distances to the query, the starting node and the beam width asked for. */
  datatype Query = Query(g: Layer, ds: seq<real>, s: nat, ef: nat)

  /** Its state: the results so far, the candidates (negated distances), the nodes seen, those expanded,
      and the bound a candidate must not exceed. */
  datatype Beam = Beam(top: Queue, candidates: Queue, visited: set<nat>, expanded: set<nat>, lower: real)

  /** ef = 0 behaves like ef = 1. */
  function Width(ef: nat): nat {
    if ef == 0 then 1 else ef
  }

  ghost predicate Bound(top: Queue, lower: real) {
    (forall p | p in top :: p.first <= lower) && exists p :: p in top && p.first == lower
  }

  /** top holds the ef nearest of the visited nodes, all of them while there are no more than ef. */
  ghost predicate Nearest(ds: seq<real>, ef: nat, top: Queue, visited: set<nat>) {
    && (forall p | p in top :: p.second in visited && p.second < |ds| && p.first == ds[p.second])
    && (forall v | v in visited :: v < |ds|)
    && |top| <= Width(ef) && |top| <= |visited|
    && (|top| < Width(ef) ==> |top| == |visited|)
    && (|visited| <= Width(ef) ==> forall v | v in visited :: Pair(ds[v], v) in top)
    && (forall v, p | v in visited && p in top :: Pair(ds[v], v) in top || p.first <= ds[v])
  }

  ghost predicate Waiting(ds: seq<real>, candidates: Queue, visited: set<nat>) {
    forall p | p in candidates :: p.second in visited && p.second < |ds| && p.first == -ds[p.second]
  }

  /** Everything seen is reachable, and the neighbours of expanded nodes have been seen. */
  ghost predicate Known(g: Layer, s: nat, visited: set<nat>, expanded: set<nat>) {
    && s in visited && (forall v | v in visited :: Reaches(g, s, v))
    && expanded <= visited
    && (forall e, v | e in expanded && e < |g| && v in g[e] :: v in visited)
  }

  ghost predicate Pending(top: Queue, candidates: Queue, expanded: set<nat>) {
    forall p | p in top :: p.second in expanded || Pair(-p.first, p.second) in candidates
  }

  /** The invariant of the outer loop. */
  ghost predicate Searching(q: Query, b: Beam) {
    && Nearest(q.ds, q.ef, b.top, b.visited) && Bound(b.top, b.lower)
    && Waiting(q.ds, b.candidates, b.visited)
    && Known(q.g, q.s, b.visited, b.expanded)
    && Pending(b.top, b.candidates, b.expanded)
  }

  /** The invariant of the inner loop: the first done neighbours of cur have been looked at. */
  ghost predicate Expanding(q: Query, b: Beam, cur: nat, done: nat) {
    && Nearest(q.ds, q.ef, b.top, b.visited) && Bound(b.top, b.lower)
    && Waiting(q.ds, b.candidates, b.visited)
    && Known(q.g, q.s, b.visited, b.expanded)
    && Pending(b.top, b.candidates, b.expanded + {cur})
    && cur in b.visited && cur < |q.g| && done <= |q.g[cur]|
    && (forall j | 0 <= j < done :: q.g[cur][j] in b.visited)
  }

  ghost function TaskOf(q: Query): Task {
    Task(q.g, q.ds, q.s, Width(q.ef))
  }

  /** v waits to be expanded, or need not be. */
  ghost predicate Open(q: Query, candidates: Queue, visited: set<nat>, v: nat) {
    v < |q.ds| && (Pair(-q.ds[v], v) in candidates || Beaten(TaskOf(q), visited, v))
  }

  /** The best-first exploration the outer loop has made: the nodes of order are expanded, and every other
      node met is a candidate, or was refused and is beaten. */
  ghost predicate Tracked(q: Query, b: Beam, order: seq<nat>) {
    && InLayer(TaskOf(q), order) && InOrder(TaskOf(q), order) && b.expanded == ToSet(order) && b.visited == SeenBy(TaskOf(q), order)
    && (forall p | p in b.candidates :: p.second !in order)
    && (forall v | v in b.visited && v !in order :: Open(q, b.candidates, b.visited, v))
  }

  /** The same within the inner loop: cur comes next, and its first done neighbours have been met. */
  ghost predicate Turning(q: Query, b: Beam, order: seq<nat>, cur: nat, done: nat) {
    && NextBest(TaskOf(q), order, cur) && InOrder(TaskOf(q), order) && b.expanded == ToSet(order)
    && cur < |q.g| && done <= |q.g[cur]| && b.visited == SeenBy(TaskOf(q), order) + ToSet(q.g[cur][..done])
    && (forall p | p in b.candidates :: p.second !in order && p.second != cur)
    && (forall v | v in b.visited && v !in order && v != cur :: Open(q, b.candidates, b.visited, v))
  }

  /** The expanded and the visited nodes are those of a complete best-first exploration. */
  ghost predicate Explored(q: Query, visited: set<nat>, expanded: set<nat>) {
    exists order: seq<nat> :: ExploresTo(TaskOf(q), order, visited, expanded)
  }

  /** What a search delivers: the ef nearest of the visited nodes, every one of them expanded, where the
      visited and expanded nodes are those of a complete best-first exploration. */
  ghost predicate Delivered(q: Query, top: Queue, visited: set<nat>, expanded: set<nat>) {
    && Nearest(q.ds, q.ef, top, visited) && top != {}
    && Known(q.g, q.s, visited, expanded)
    && (forall p | p in top :: p.second in expanded)
    && Explored(q, visited, expanded)
  }

  lemma SearchStarts(q: Query)
    requires IsLayer(q.g, q.ds) && q.s < |q.g|
    ensures Searching(q, Beam({Pair(q.ds[q.s], q.s)}, {Pair(-q.ds[q.s], q.s)}, {q.s}, {}, q.ds[q.s]))
  {
    ReachesItself(q.g, q.s);
    var p := Pair(q.ds[q.s], q.s);
    assert p in {p} && p.first == q.ds[q.s];
  }

  lemma ExpansionStarts(q: Query, b: Beam, c: Pair)
    requires IsLayer(q.g, q.ds) && Searching(q, b) && c in b.candidates
    ensures c.second < |q.g| && Expanding(q, b.(candidates := b.candidates - {c}), c.second, 0)
  {
    forall p | p in b.top
      ensures p.second in b.expanded + {c.second} || Pair(-p.first, p.second) in b.candidates - {c}
    {
    }
  }

  lemma CandidateReached(q: Query, b: Beam, c: Pair)
    requires Searching(q, b) && c in b.candidates
    ensures Reaches(q.g, q.s, c.second)
  {
  }

  lemma ExpansionEnds(q: Query, b: Beam, cur: nat)
    requires cur < |q.g| && Expanding(q, b, cur, |q.g[cur]|)
    ensures Searching(q, b.(expanded := b.expanded + {cur}))
  {
  }

  lemma AlreadyVisited(q: Query, b: Beam, cur: nat, j: nat)
    requires Expanding(q, b, cur, j) && j < |q.g[cur]| && q.g[cur][j] in b.visited
    ensures Expanding(q, b, cur, j + 1)
  {
  }

  lemma SeesNeighbor(q: Query, b: Beam, cur: nat, j: nat)
    requires IsLayer(q.g, q.ds) && Expanding(q, b, cur, j) && j < |q.g[cur]|
    ensures Known(q.g, q.s, b.visited + {q.g[cur][j]}, b.expanded)
  {
    ReachesNext(q.g, q.s, cur, q.g[cur][j]);
  }

  /** A new node that is no nearer than a full top is only marked. */
  lemma NodeRejected(q: Query, b: Beam, cur: nat, j: nat)
    requires IsLayer(q.g, q.ds) && Expanding(q, b, cur, j) && j < |q.g[cur]| && q.g[cur][j] !in b.visited
    requires b.lower <= q.ds[q.g[cur][j]] && |b.top| >= q.ef
    ensures Expanding(q, b.(visited := b.visited + {q.g[cur][j]}), cur, j + 1)
  {
    SeesNeighbor(q, b, cur, j);
    assert |b.top| > 0;
  }

  lemma NearestAccepts(ds: seq<real>, ef: nat, top: Queue, visited: set<nat>, v: nat)
    requires Nearest(ds, ef, top, visited) && v < |ds| && v !in visited && |top| < ef
    ensures Pair(ds[v], v) !in top && Nearest(ds, ef, top + {Pair(ds[v], v)}, visited + {v})
  {
    assert |top + {Pair(ds[v], v)}| == |top| + 1 && |visited + {v}| == |visited| + 1;
  }

  lemma NearestReplaces(ds: seq<real>, ef: nat, top: Queue, visited: set<nat>, v: nat, lower: real, worst: Pair)
    requires Nearest(ds, ef, top, visited) && v < |ds| && v !in visited && |top| == Width(ef)
    requires Bound(top, lower) && ds[v] < lower
    requires TopByFirst(top + {Pair(ds[v], v)}, worst)
    ensures Pair(ds[v], v) !in top && worst in top && worst.first == lower
    ensures Nearest(ds, ef, top + {Pair(ds[v], v)} - {worst}, visited + {v})
  {
    var full := top + {Pair(ds[v], v)};
    var p :| p in top && p.first == lower;
    assert p in full;
    assert worst in top;
    assert |full - {worst}| == |top| && |visited + {v}| == |visited| + 1;
  }

  /** Queues after looking at a new neighbour v that was let in; the bound is read off the new top. */
  lemma NodeAccepted(q: Query, b: Beam, cur: nat, j: nat, v: nat, x: real, top: Queue, candidates: Queue, lower: real)
    requires IsLayer(q.g, q.ds) && Expanding(q, b, cur, j) && j < |q.g[cur]| && v == q.g[cur][j] && v !in b.visited
    requires v < |q.ds| && x == q.ds[v]
    requires Nearest(q.ds, q.ef, top, b.visited + {v}) && Bound(top, lower)
    requires top <= b.top + {Pair(x, v)} && candidates == b.candidates + {Pair(-x, v)}
    ensures Expanding(q, Beam(top, candidates, b.visited + {v}, b.expanded, lower), cur, j + 1)
  {
    hide Nearest, Known, Bound, Pending, Waiting;
    SeesNeighbor(q, b, cur, j);
    PendingGrows(b.top, b.candidates, b.expanded + {cur}, top, x, v);
    WaitingGrows(q.ds, b.candidates, b.visited, v);
  }

  lemma PendingGrows(top: Queue, candidates: Queue, expanded: set<nat>, top': Queue, x: real, v: nat)
    requires Pending(top, candidates, expanded) && top' <= top + {Pair(x, v)}
    ensures Pending(top', candidates + {Pair(-x, v)}, expanded)
  {
    var more := candidates + {Pair(-x, v)};
    forall p | p in top'
      ensures p.second in expanded || Pair(-p.first, p.second) in more
    {
      if p != Pair(x, v) {
        assert p in top;
      }
    }
  }

  lemma WaitingGrows(ds: seq<real>, candidates: Queue, visited: set<nat>, v: nat)
    requires Waiting(ds, candidates, visited) && v < |ds| && v !in visited
    ensures Pair(-ds[v], v) !in candidates
    ensures Waiting(ds, candidates + {Pair(-ds[v], v)}, visited + {v})
  {
  }

  /** v enters the results, and the farthest of them leaves when there is one too many. */
  method TakeIn(ghost ds: seq<real>, ghost visited: set<nat>, ef: nat, v: nat, x: real, top0: Queue, ghost lower0: real) returns (top: Queue)
    requires Nearest(ds, ef, top0, visited) && Bound(top0, lower0) && v < |ds| && x == ds[v] && v !in visited
    requires x < lower0 || |top0| < ef
    ensures Nearest(ds, ef, top, visited + {v}) && top != {} && top <= top0 + {Pair(x, v)}
  {
    hide Nearest, Bound, TopByFirst;
    BoundIsTop(top0, lower0);
    NotInTop(ds, ef, top0, visited, v);
    top := Emplace(top0, x, v);
    if |top| > ef {
      WidthBound(ds, ef, top0, visited);
      var farthest, rest := PopByFirst(top);
      NearestReplaces(ds, ef, top0, visited, v, lower0, farthest);
      top := rest;
    } else {
      NearestAccepts(ds, ef, top0, visited, v);
    }
  }

  /** Body of the inner loop for a neighbour v of cur that has not been visited, x away from the query. */
  method LookAt(ghost q: Query, ghost b: Beam, ghost order: seq<nat>, ghost cur: nat, ghost j: nat, ef: nat, v: nat, x: real,
                top0: Queue, candidates0: Queue, lower0: real)
    returns (top: Queue, candidates: Queue, lower: real)
    requires IsLayer(q.g, q.ds) && Expanding(q, b, cur, j) && j < |q.g[cur]| && v == q.g[cur][j] && v !in b.visited
    requires ef == q.ef && v < |q.ds| && x == q.ds[v] && top0 == b.top && candidates0 == b.candidates && lower0 == b.lower
    requires Turning(q, b, order, cur, j)
    ensures Expanding(q, Beam(top, candidates, b.visited + {v}, b.expanded, lower), cur, j + 1)
    ensures Turning(q, Beam(top, candidates, b.visited + {v}, b.expanded, lower), order, cur, j + 1)
  {
    hide *;
    ExpandingParts(q, b, cur, j);
    top, candidates, lower := top0, candidates0, lower0;
    BoundIsTop(top, lower);
    var worst := WorstOf(top);
    BoundIsUnique(top, worst, lower);
    if worst > x || |top| < ef {
      top, candidates, lower := LetIn(q, b, order, cur, j, ef, v, x, top, candidates, lower);
    } else {
      RejectedMeets(q, b, order, cur, j, v);
    }
  }

  /** v becomes a candidate and enters the results. */
  method LetIn(ghost q: Query, ghost b: Beam, ghost order: seq<nat>, ghost cur: nat, ghost j: nat, ef: nat, v: nat, x: real,
               top0: Queue, candidates0: Queue, ghost lower0: real)
    returns (top: Queue, candidates: Queue, lower: real)
    requires IsLayer(q.g, q.ds) && Expanding(q, b, cur, j) && Turning(q, b, order, cur, j)
    requires cur < |q.g| && j < |q.g[cur]| && v == q.g[cur][j] && v !in b.visited
    requires ef == q.ef && v < |q.ds| && x == q.ds[v] && top0 == b.top && candidates0 == b.candidates && lower0 == b.lower
    requires x < lower0 || |top0| < ef
    ensures Expanding(q, Beam(top, candidates, b.visited + {v}, b.expanded, lower), cur, j + 1)
    ensures Turning(q, Beam(top, candidates, b.visited + {v}, b.expanded, lower), order, cur, j + 1)
  {
    ExpandingParts(q, b, cur, j);
    WaitingGrows(q.ds, b.candidates, b.visited, v);
    candidates := Emplace(candidates0, -x, v);
    top := TakeIn(q.ds, b.visited, ef, v, x, top0, lower0);
    lower := WorstOf(top);
    AcceptedMeets(q, b, order, cur, j, v, top, candidates, lower);
  }

  /** top().first, which bounds the queue. */
  method WorstOf(top: Queue) returns (x: real)
    requires top != {}
    ensures Bound(top, x)
  {
    x := TopFirst(top);
    ghost var e :| TopByFirst(top, e) && x == e.first;
  }

  lemma BoundIsUnique(top: Queue, x: real, y: real)
    requires Bound(top, x) && Bound(top, y)
    ensures x == y
  {
  }

  lemma ExpandingParts(q: Query, b: Beam, cur: nat, j: nat)
    requires Expanding(q, b, cur, j)
    ensures Nearest(q.ds, q.ef, b.top, b.visited) && Bound(b.top, b.lower) && Waiting(q.ds, b.candidates, b.visited)
    ensures cur < |q.g|
  {
  }

  lemma ExpandedIsVisited(q: Query, b: Beam, cur: nat, j: nat)
    requires Expanding(q, b, cur, j)
    ensures cur in b.visited && b.expanded <= b.visited
  {
  }

  lemma BoundIsTop(top: Queue, lower: real)
    requires Bound(top, lower)
    ensures top != {}
  {
  }

  lemma WidthBound(ds: seq<real>, ef: nat, top: Queue, visited: set<nat>)
    requires Nearest(ds, ef, top, visited) && top != {}
    ensures 1 <= |top| <= Width(ef) && (|top| >= ef ==> |top| == Width(ef))
  {
  }

  lemma NotInTop(ds: seq<real>, ef: nat, top: Queue, visited: set<nat>, v: nat)
    requires Nearest(ds, ef, top, visited) && v < |ds| && v !in visited
    ensures Pair(ds[v], v) !in top
  {
  }

  /** The break, and running out of candidates, leave nothing in top unexpanded. */
  lemma SearchEnds(q: Query, b: Beam, order: seq<nat>)
    requires Searching(q, b) && Tracked(q, b, order)
    requires forall c | c in b.candidates :: -c.first > b.lower
    ensures Delivered(q, b.top, b.visited, b.expanded)
  {
    ExplorationEnds(q, b, order);
    forall p | p in b.top
      ensures p.second in b.expanded
    {
      assert Pair(-p.first, p.second) in b.candidates ==> -(-p.first) > b.lower;
    }
  }

  // ---------------------------------------------------------------- the exploration it makes

  lemma TrackStarts(q: Query)
    requires IsLayer(q.g, q.ds) && q.s < |q.g|
    ensures Tracked(q, Beam({Pair(q.ds[q.s], q.s)}, {Pair(-q.ds[q.s], q.s)}, {q.s}, {}, q.ds[q.s]), [])
  {
  }

  /** The nodes of a queue are as many as its pairs. */
  lemma {:induction false} NodesCount(ds: seq<real>, top: Queue) returns (nodes: set<nat>)
    requires forall p | p in top :: p.second < |ds| && p.first == ds[p.second]
    ensures |nodes| == |top| && forall v: nat :: v in nodes <==> v < |ds| && Pair(ds[v], v) in top
  {
    nodes := set p | p in top :: p.second;
    SameCount(top, nodes, map p | p in top :: p.second, map v | v in nodes && v < |ds| :: Pair(ds[v], v));
  }

  /** No candidate within the bound comes after ef nearer nodes. */
  lemma FewAhead(q: Query, b: Beam, x: real)
    requires Nearest(q.ds, q.ef, b.top, b.visited) && Bound(b.top, b.lower) && x <= b.lower
    ensures |Ahead(q.ds, b.visited, x)| < Width(q.ef)
  {
    var last :| last in b.top && last.first == b.lower;
    var nodes := NodesCount(q.ds, b.top);
    assert last.second in nodes;
    forall v | v in Ahead(q.ds, b.visited, x)
      ensures v in nodes - {last.second}
    {
      assert Pair(q.ds[v], v) in b.top;
    }
    SubsetCount(Ahead(q.ds, b.visited, x), nodes - {last.second});
  }

  /** A node outside a full top that is no nearer than its bound is beaten. */
  lemma OutsideIsBeaten(q: Query, b: Beam, visited: set<nat>, v: nat)
    requires Nearest(q.ds, q.ef, b.top, b.visited) && Bound(b.top, b.lower) && |b.top| == Width(q.ef)
    requires v < |q.ds| && Pair(q.ds[v], v) !in b.top && b.lower <= q.ds[v] && b.visited <= visited
    ensures Beaten(TaskOf(q), visited, v)
  {
    var nodes := NodesCount(q.ds, b.top);
    forall u | u in nodes
      ensures u in NoFarther(q.ds, visited, v)
    {
      assert Pair(q.ds[u], u) in b.top;
    }
    SubsetCount(nodes, NoFarther(q.ds, visited, v));
  }

  /** The nearest candidate within the bound is what a best-first exploration expands next. */
  lemma CandidateIsNext(q: Query, b: Beam, order: seq<nat>, c: Pair)
    requires IsLayer(q.g, q.ds) && Searching(q, b) && Tracked(q, b, order)
    requires TopByFirst(b.candidates, c) && -c.first <= b.lower
    ensures NextBest(TaskOf(q), order, c.second)
  {
    hide InOrder, SeenBy, Beaten, Known, Pending, Ahead;
    var cur := c.second;
    assert cur in b.visited && q.ds[cur] == -c.first;
    FewAhead(q, b, q.ds[cur]);
    forall v | v in b.visited && v !in order
      ensures v < |q.ds| && q.ds[cur] <= q.ds[v]
    {
      assert Open(q, b.candidates, b.visited, v);
      if Pair(-q.ds[v], v) !in b.candidates {
        BeatenIsNoNearer(TaskOf(q), b.visited, v, q.ds[cur]);
      }
    }
  }

  lemma TurnStarts(q: Query, b: Beam, order: seq<nat>, c: Pair)
    requires IsLayer(q.g, q.ds) && Searching(q, b) && Tracked(q, b, order)
    requires TopByFirst(b.candidates, c) && -c.first <= b.lower
    ensures Turning(q, b.(candidates := b.candidates - {c}), order, c.second, 0)
  {
    hide InOrder, NextBest, SeenBy, Beaten, Nearest, Known, Pending, Bound;
    CandidateIsNext(q, b, order, c);
    assert q.g[c.second][..0] == [];
    forall v | v in b.visited && v !in order && v != c.second
      ensures Open(q, b.candidates - {c}, b.visited, v)
    {
      assert Open(q, b.candidates, b.visited, v);
    }
  }

  lemma MetOnceMore(ids: seq<nat>, j: nat)
    requires j < |ids|
    ensures ToSet(ids[..j + 1]) == ToSet(ids[..j]) + {ids[j]}
  {
    assert ids[..j + 1] == ids[..j] + [ids[j]];
  }

  lemma TurnSkips(q: Query, b: Beam, order: seq<nat>, cur: nat, j: nat)
    requires Turning(q, b, order, cur, j) && j < |q.g[cur]| && q.g[cur][j] in b.visited
    ensures Turning(q, b, order, cur, j + 1)
  {
    MetOnceMore(q.g[cur], j);
  }

  /** A neighbour met for the first time becomes a candidate, or is beaten already. */
  lemma TurnMeets(q: Query, b: Beam, order: seq<nat>, cur: nat, j: nat, b': Beam)
    requires IsLayer(q.g, q.ds) && Turning(q, b, order, cur, j) && j < |q.g[cur]| && cur in b.visited && b.expanded <= b.visited
    requires q.g[cur][j] !in b.visited && b'.visited == b.visited + {q.g[cur][j]} && b'.expanded == b.expanded
    requires b'.candidates == b.candidates + {Pair(-q.ds[q.g[cur][j]], q.g[cur][j])}
             || (b'.candidates == b.candidates && Beaten(TaskOf(q), b'.visited, q.g[cur][j]))
    ensures Turning(q, b', order, cur, j + 1)
  {
    hide InOrder, NextBest, SeenBy, Beaten;
    MetOnceMore(q.g[cur], j);
    forall u | u in b'.visited && u !in order && u != cur
      ensures Open(q, b'.candidates, b'.visited, u)
    {
      assert u in b.visited ==> Open(q, b.candidates, b.visited, u);
      if u in b.visited && Beaten(TaskOf(q), b.visited, u) {
        BeatenStays(TaskOf(q), b.visited, b'.visited, u);
      }
    }
  }

  /** A neighbour met for the first time and let in. */
  lemma AcceptedMeets(q: Query, b: Beam, order: seq<nat>, cur: nat, j: nat, v: nat, top: Queue, candidates: Queue, lower: real)
    requires IsLayer(q.g, q.ds) && Expanding(q, b, cur, j) && Turning(q, b, order, cur, j)
    requires cur < |q.g| && j < |q.g[cur]| && v == q.g[cur][j] && v !in b.visited && v < |q.ds|
    requires Nearest(q.ds, q.ef, top, b.visited + {v}) && Bound(top, lower)
    requires top <= b.top + {Pair(q.ds[v], v)} && candidates == b.candidates + {Pair(-q.ds[v], v)}
    ensures Expanding(q, Beam(top, candidates, b.visited + {v}, b.expanded, lower), cur, j + 1)
    ensures Turning(q, Beam(top, candidates, b.visited + {v}, b.expanded, lower), order, cur, j + 1)
  {
    hide *;
    ExpandedIsVisited(q, b, cur, j);
    NodeAccepted(q, b, cur, j, v, q.ds[v], top, candidates, lower);
    TurnMeets(q, b, order, cur, j, Beam(top, candidates, b.visited + {v}, b.expanded, lower));
  }

  /** A neighbour met for the first time and refused. */
  lemma RejectedMeets(q: Query, b: Beam, order: seq<nat>, cur: nat, j: nat, v: nat)
    requires IsLayer(q.g, q.ds) && Expanding(q, b, cur, j) && Turning(q, b, order, cur, j)
    requires cur < |q.g| && j < |q.g[cur]| && v == q.g[cur][j] && v !in b.visited && v < |q.ds|
    requires b.lower <= q.ds[v] && |b.top| >= q.ef
    ensures Expanding(q, Beam(b.top, b.candidates, b.visited + {v}, b.expanded, b.lower), cur, j + 1)
    ensures Turning(q, Beam(b.top, b.candidates, b.visited + {v}, b.expanded, b.lower), order, cur, j + 1)
  {
    hide *;
    ExpandingParts(q, b, cur, j);
    BoundIsTop(b.top, b.lower);
    NodeRejected(q, b, cur, j);
    WidthBound(q.ds, q.ef, b.top, b.visited);
    NotInTop(q.ds, q.ef, b.top, b.visited, v);
    OutsideIsBeaten(q, b, b.visited + {v}, v);
    assert b.(visited := b.visited + {v}) == Beam(b.top, b.candidates, b.visited + {v}, b.expanded, b.lower);
    ExpandedIsVisited(q, b, cur, j);
    TurnMeets(q, b, order, cur, j, b.(visited := b.visited + {v}));
  }

  lemma TurnEnds(q: Query, b: Beam, order: seq<nat>, cur: nat)
    requires cur < |q.g| && Turning(q, b, order, cur, |q.g[cur]|)
    ensures Tracked(q, b.(expanded := b.expanded + {cur}), order + [cur])
  {
    OrderGrows(TaskOf(q), order, cur);
    SeenOnceMore(TaskOf(q), order, cur);
    assert q.g[cur][..|q.g[cur]|] == q.g[cur];
  }

  /** The break, and running out of candidates, end a complete exploration. */
  lemma ExplorationEnds(q: Query, b: Beam, order: seq<nat>)
    requires Searching(q, b) && Tracked(q, b, order)
    requires forall c | c in b.candidates :: -c.first > b.lower
    ensures Explored(q, b.visited, b.expanded)
  {
    hide InOrder, SeenBy, Beaten;
    var t := TaskOf(q);
    forall v | v in b.visited
      ensures v in order || Beaten(t, b.visited, v)
    {
      assert v !in order ==> Open(q, b.candidates, b.visited, v);
      if v !in order && Pair(-q.ds[v], v) in b.candidates {
        assert -(-q.ds[v]) > b.lower;
        OutsideIsBeaten(q, b, b.visited, v);
      }
    }
    assert Exhausted(t, order);
    assert ExploresTo(t, order, b.visited, b.expanded);
  }

  // ---------------------------------------------------------------- what it means

  /** Local closure: a neighbour of a returned node is returned too, or no nearer than any of ef results. */
  lemma LocallyClosed(q: Query, top: Queue, visited: set<nat>, expanded: set<nat>, p: Pair, v: nat)
    requires Delivered(q, top, visited, expanded)
    requires p in top && p.second < |q.g| && v in q.g[p.second]
    ensures v < |q.ds|
    ensures Pair(q.ds[v], v) in top || (|top| == Width(q.ef) && forall r | r in top :: r.first <= q.ds[v])
  {
  }

  /** There are as many results as the beam allows, and no visited node left out is nearer than one. */
  lemma NearestOfVisited(q: Query, top: Queue, visited: set<nat>, expanded: set<nat>)
    requires Delivered(q, top, visited, expanded)
    ensures |top| == if |visited| < Width(q.ef) then |visited| else Width(q.ef)
    ensures forall v, r | v in visited && r in top && Pair(q.ds[v], v) !in top :: r.first <= q.ds[v]
  {
  }

  /** Without ties a search has one result: it depends on the layer, the distances, the start and the width. */
  lemma ResultIsUnique(q: Query, top: Queue, visited: set<nat>, expanded: set<nat>,
                       top': Queue, visited': set<nat>, expanded': set<nat>)
    requires NoTies(q.ds) && Delivered(q, top, visited, expanded) && Delivered(q, top', visited', expanded')
    ensures top == top' && visited == visited' && expanded == expanded'
  {
    hide Explores, SeenBy, Nearest;
    var order: seq<nat> :| ExploresTo(TaskOf(q), order, visited, expanded);
    var order': seq<nat> :| ExploresTo(TaskOf(q), order', visited', expanded');
    ExplorationIsUnique(TaskOf(q), order, order');
    TopIsUnique(q.ds, q.ef, top, top', visited);
    TopIsUnique(q.ds, q.ef, top', top, visited);
  }

  lemma TopIsUnique(ds: seq<real>, ef: nat, top: Queue, top': Queue, visited: set<nat>)
    requires NoTies(ds) && Nearest(ds, ef, top, visited) && Nearest(ds, ef, top', visited)
    ensures top <= top'
  {
    if p :| p in top && p !in top' {
      if top' <= top {
        SubsetCount(top', top - {p});
      } else {
        var r :| r in top' && r !in top;
        assert p.first <= r.first && r.first <= p.first && p.second == r.second;
      }
    }
  }

  ghost predicate AllReached(g: Layer, s: nat, reached: set<nat>) {
    forall v: nat :: v in reached <==> v < |g| && Reaches(g, s, v)
  }

  /** With a beam as wide as what is reachable, the search returns exactly the reachable nodes. */
  lemma WideBeamIsExact(q: Query, top: Queue, visited: set<nat>, expanded: set<nat>, reached: set<nat>)
    requires IsLayer(q.g, q.ds) && Delivered(q, top, visited, expanded)
    requires AllReached(q.g, q.s, reached) && |reached| <= Width(q.ef)
    ensures visited == reached
    ensures top == set v | v in reached :: Pair(q.ds[v], v)
  {
    hide Explored;
    SubsetCount(visited, reached);
    forall u, v | u in visited && u < |q.g| && v in q.g[u]
      ensures v in visited
    {
      assert Pair(q.ds[u], u) in top;
    }
    forall v | v in reached
      ensures v in visited
    {
      var path :| IsPath(q.g, path) && path[0] == q.s && path[|path| - 1] == v;
      ClosedHoldsReached(q.g, visited, path);
    }
    assert visited == reached;
  }
}
