/** Sequential insertion is one of the runs of concurrent insertion: with nobody else on the way, the steps of a
    call lead to exactly the links, the entry point and the maximum level of Hnsw.AddPoint. */
module SequentialRuns {
  import opened Wrappers
  import opened Queues
  import opened FiniteSets
  import opened BeamSearch
  import opened HnswGraph
  import opened GreedyDescent
  import opened NeighborHeuristic
  import opened ConcurrentInsert
  import Hnsw

  // ---------------------------------------------------------------- steps of one call

  /** These are steps of call c, and they lead from s to t. */
  ghost predicate Leads(s: State, c: nat, events: seq<Event>, t: State)
    decreases |events|
  {
    if events == [] then s == t
    else
      && !events[0].Arrive? && events[0].c == c && Enabled(s, events[0])
      && Leads(Apply(s, events[0]), c, events[1..], t)
  }

  ghost predicate Goes(s: State, c: nat, t: State) {
    exists events :: Leads(s, c, events, t)
  }

  lemma {:induction false} LeadsOn(s: State, c: nat, a: seq<Event>, t: State, b: seq<Event>, u: State)
    requires Leads(s, c, a, t) && Leads(t, c, b, u)
    ensures Leads(s, c, a + b, u)
    decreases |a|
  {
    hide Inv, Enabled, Apply;
    if a == [] {
      assert a + b == b;
    } else {
      LeadsOn(Apply(s, a[0]), c, a[1..], t, b, u);
      assert (a + b)[0] == a[0] && (a + b)[1..] == a[1..] + b;
    }
  }

  lemma GoesOn(s: State, c: nat, t: State, u: State)
    requires Goes(s, c, t) && Goes(t, c, u)
    ensures Goes(s, c, u)
  {
    var a :| Leads(s, c, a, t);
    var b :| Leads(t, c, b, u);
    LeadsOn(s, c, a, t, b, u);
  }

  lemma GoesNowhere(s: State, c: nat)
    ensures Goes(s, c, s)
  {
    assert Leads(s, c, [], s);
  }

  /** One step. */
  lemma Take(s: State, e: Event, t: State)
    requires Inv(s) && !e.Arrive? && Enabled(s, e) && Apply(s, e) == t
    ensures Goes(s, e.c, t) && Inv(t)
  {
    hide Inv, Enabled, Apply;
    InvStep(s, e);
    assert [e][1..] == [];
    assert Leads(t, e.c, [], t);
    assert Leads(s, e.c, [e], t);
  }

  lemma TakeTwo(s: State, e: Event, f: Event, t: State)
    requires Inv(s) && !e.Arrive? && !f.Arrive? && e.c == f.c && Enabled(s, e)
    requires Enabled(Apply(s, e), f) && Apply(Apply(s, e), f) == t
    ensures Goes(s, e.c, t) && Inv(t)
  {
    hide Inv, Enabled, Apply;
    Take(s, e, Apply(s, e));
    Take(Apply(s, e), f, t);
    GoesOn(s, e.c, Apply(s, e), t);
  }

  // ---------------------------------------------------------------- a call alone on the way

  /** What changes while a call is on its way and nobody else is. */
  datatype Stage = Stage(phase: Phase, lists: Links, clock: nat)

  /** The calls of q are over, and the next one has got this far. */
  function Mid(q: State, level: nat, g: Stage): State {
    var c := |q.threads|;
    State(q.m, q.threads + [Thread(level, g.phase)], g.lists, map[c := c], if level > q.maxlevel then Some(c) else None,
          q.entry, q.maxlevel, g.clock)
  }

  /** The call gets from one stage to the other. */
  ghost predicate Gets(q: State, level: nat, g: Stage, h: Stage) {
    Inv(Mid(q, level, g)) && Goes(Mid(q, level, g), |q.threads|, Mid(q, level, h)) && Inv(Mid(q, level, h))
  }

  lemma GetsOn(q: State, level: nat, g: Stage, h: Stage, k: Stage)
    requires Gets(q, level, g, h) && Gets(q, level, h, k)
    ensures Gets(q, level, g, k)
  {
    hide Inv, Goes;
    GoesOn(Mid(q, level, g), |q.threads|, Mid(q, level, h), Mid(q, level, k));
  }

  lemma GetsNowhere(q: State, level: nat, g: Stage)
    requires Inv(Mid(q, level, g))
    ensures Gets(q, level, g, g)
  {
    hide Inv;
    GoesNowhere(Mid(q, level, g), |q.threads|);
  }

  lemma MidAt(q: State, level: nat, g: Stage, p: Phase)
    ensures At(Mid(q, level, g), |q.threads|, p) == Mid(q, level, g.(phase := p))
  {
  }

  /** It locks a node it wants to look at. */
  lemma LockStep(q: State, level: nat, g: Stage, n: nat)
    requires Inv(Mid(q, level, g)) && Wants(|q.threads|, g.phase) == Some(n) && !g.phase.Arrived? && n != |q.threads|
    ensures var s, c := Mid(q, level, g), |q.threads|;
            && Enabled(s, LockNode(c))
            && Apply(s, LockNode(c)) == Mid(q, level, g.(phase := Inside(g.phase))).(lock := map[c := c, n := c])
            && Inv(Apply(s, LockNode(c)))
  {
    var s, c := Mid(q, level, g), |q.threads|;
    CannotThrow(s, c);
    hide Inv, Throws;
    MidAt(q, level, g, Inside(g.phase));
    assert map[c := c][n := c] == map[c := c, n := c];
    InvStep(s, LockNode(c));
  }

  lemma Unlocked(c: nat, n: nat)
    requires n != c
    ensures map[c := c, n := c] - {n} == map[c := c]
  {
  }

  /** A step of this call that changes its phase only. */
  lemma PhaseStep(q: State, level: nat, g: Stage, e: Event, p: Phase)
    requires Inv(Mid(q, level, g)) && !e.Arrive? && e.c == |q.threads| && Enabled(Mid(q, level, g), e)
    requires Apply(Mid(q, level, g), e) == At(Mid(q, level, g), e.c, p)
    ensures Gets(q, level, g, g.(phase := p))
  {
    hide Inv, Enabled, Apply, Goes;
    MidAt(q, level, g, p);
    Take(Mid(q, level, g), e, Mid(q, level, g.(phase := p)));
  }

  /** A node is locked, looked at and unlocked. */
  lemma LookStep(q: State, level: nat, g: Stage, n: nat, e: Event, h: Stage)
    requires Inv(Mid(q, level, g)) && Wants(|q.threads|, g.phase) == Some(n) && !g.phase.Arrived? && n != |q.threads|
    requires var s := Mid(q, level, g.(phase := Inside(g.phase))).(lock := map[|q.threads| := |q.threads|, n := |q.threads|]);
             !e.Arrive? && e.c == |q.threads| && (!Throws(s, e.c) ==> Enabled(s, e) && Apply(s, e) == Mid(q, level, h))
    ensures Gets(q, level, g, h)
  {
    hide Enabled, Apply, Goes, Throws;
    LockStep(q, level, g, n);
    var s := Mid(q, level, g);
    CannotThrow(Apply(s, LockNode(e.c)), e.c);
    hide Inv;
    TakeTwo(s, LockNode(e.c), e, Mid(q, level, h));
  }

  // ---------------------------------------------------------------- descent

  /** The call moves on to a node in the list of the one it is at. */
  lemma HopGoes(q: State, level: nat, copy: int, obj: nat, lvl: nat, next: nat, lists: Links, clock: nat)
    requires Inv(Mid(q, level, Stage(Descending(copy, obj, lvl, false), lists, clock)))
    requires obj < |lists| && next in ListAt(lists[obj], lvl)
    ensures Gets(q, level, Stage(Descending(copy, obj, lvl, false), lists, clock), Stage(Descending(copy, next, lvl, false), lists, clock))
  {
    var c, g := |q.threads|, Stage(Descending(copy, obj, lvl, false), lists, clock);
    assert ThreadOk(Mid(q, level, g), c);
    hide Inv, Throws, Gets;
    MidAt(q, level, g.(phase := Descending(copy, obj, lvl, true)), Descending(copy, next, lvl, false));
    Unlocked(c, obj);
    LookStep(q, level, g, obj, DescendRead(c, Some(next)), Stage(Descending(copy, next, lvl, false), lists, clock));
  }

  /** The hops of a walk, one after the other. */
  lemma {:induction false} WalkGoes(q: State, level: nat, copy: int, lvl: nat, ds: seq<real>, path: seq<nat>, n: nat, lists: Links, clock: nat)
    requires Hops(LayerOf(lists, lvl), ds, path) && n < |path|
    requires Inv(Mid(q, level, Stage(Descending(copy, path[0], lvl, false), lists, clock)))
    ensures Gets(q, level, Stage(Descending(copy, path[0], lvl, false), lists, clock), Stage(Descending(copy, path[n], lvl, false), lists, clock))
  {
    hide Inv, Goes;
    var g := Stage(Descending(copy, path[0], lvl, false), lists, clock);
    if n == 0 {
      GetsNowhere(q, level, g);
    } else {
      WalkGoes(q, level, copy, lvl, ds, path, n - 1, lists, clock);
      assert Hop(ds, LayerOf(lists, lvl)[path[n - 1]], path[n - 1], path[n - 1 + 1]);
      HopGoes(q, level, copy, path[n - 1], lvl, path[n], lists, clock);
      GetsOn(q, level, g, Stage(Descending(copy, path[n - 1], lvl, false), lists, clock), Stage(Descending(copy, path[n], lvl, false), lists, clock));
    }
  }

  /** What follows when no neighbour on level lvl is nearer. */
  function AfterWalk(level: nat, copy: int, obj: nat, lvl: nat): Phase {
    if lvl > level + 1 then Descending(copy, obj, lvl - 1, false) else NextLevel(copy, obj, level)
  }

  lemma WalkEnds(q: State, level: nat, copy: int, obj: nat, lvl: nat, lists: Links, clock: nat)
    requires Inv(Mid(q, level, Stage(Descending(copy, obj, lvl, false), lists, clock)))
    ensures Gets(q, level, Stage(Descending(copy, obj, lvl, false), lists, clock), Stage(AfterWalk(level, copy, obj, lvl), lists, clock))
  {
    var c, g := |q.threads|, Stage(Descending(copy, obj, lvl, false), lists, clock);
    assert ThreadOk(Mid(q, level, g), c);
    hide Inv, Throws, Gets;
    MidAt(q, level, g.(phase := Descending(copy, obj, lvl, true)), AfterWalk(level, copy, obj, lvl));
    Unlocked(c, obj);
    LookStep(q, level, g, obj, DescendRead(c, None), Stage(AfterWalk(level, copy, obj, lvl), lists, clock));
  }

  /** Where the call stands when the first k walks of a descent are over. */
  ghost function InDescent(level: nat, copy: int, start: nat, paths: seq<seq<nat>>, k: nat): Phase
    requires k <= |paths|
  {
    if copy - k > level then Descending(copy, StartOf(start, paths, k), copy - k, false)
    else NextLevel(copy, StartOf(start, paths, k), if level < copy then level else copy)
  }

  lemma {:induction false} DescentGoes(q: State, level: nat, copy: int, ds: seq<real>, start: nat, paths: seq<seq<nat>>, end: nat, k: nat, lists: Links, clock: nat)
    requires IsDescent(lists, ds, copy, level, start, paths, end) && k <= |paths|
    requires Inv(Mid(q, level, Stage(InDescent(level, copy, start, paths, 0), lists, clock)))
    ensures Gets(q, level, Stage(InDescent(level, copy, start, paths, 0), lists, clock), Stage(InDescent(level, copy, start, paths, k), lists, clock))
  {
    hide Inv, Goes;
    var g := Stage(InDescent(level, copy, start, paths, 0), lists, clock);
    if k == 0 {
      GetsNowhere(q, level, g);
    } else {
      DescentGoes(q, level, copy, ds, start, paths, end, k - 1, lists, clock);
      var lvl, path := copy - (k - 1), paths[k - 1];
      assert WalkAt(lists, ds, copy, start, paths, k - 1);
      WalkGoes(q, level, copy, lvl, ds, path, |path| - 1, lists, clock);
      WalkEnds(q, level, copy, Last(path), lvl, lists, clock);
      var h := Stage(Descending(copy, Last(path), lvl, false), lists, clock);
      hide Gets;
      GetsOn(q, level, g, Stage(InDescent(level, copy, start, paths, k - 1), lists, clock), h);
      GetsOn(q, level, g, h, Stage(InDescent(level, copy, start, paths, k), lists, clock));
    }
  }

  // ---------------------------------------------------------------- one level

  /** A node that is known is looked at next. */
  lemma PickGoes(q: State, level: nat, copy: int, obj: nat, lvl: nat, known: set<nat>, v: nat, lists: Links, clock: nat)
    requires Inv(Mid(q, level, Stage(Searching(copy, obj, lvl, known), lists, clock))) && v in known
    ensures Gets(q, level, Stage(Searching(copy, obj, lvl, known), lists, clock), Stage(Expanding(copy, obj, lvl, known, v, false), lists, clock))
  {
    var c, g := |q.threads|, Stage(Searching(copy, obj, lvl, known), lists, clock);
    CannotThrow(Mid(q, level, g), c);
    hide Inv, Throws, Gets;
    PhaseStep(q, level, g, PickCandidate(c, v), Expanding(copy, obj, lvl, known, v, false));
  }

  /** Its neighbours become known. */
  lemma ReadGoes(q: State, level: nat, copy: int, obj: nat, lvl: nat, known: set<nat>, v: nat, lists: Links, clock: nat)
    requires Inv(Mid(q, level, Stage(Expanding(copy, obj, lvl, known, v, false), lists, clock))) && v < |lists|
    ensures Gets(q, level, Stage(Expanding(copy, obj, lvl, known, v, false), lists, clock),
                 Stage(Searching(copy, obj, lvl, known + ToSet(ListAt(lists[v], lvl))), lists, clock))
  {
    var c, g := |q.threads|, Stage(Expanding(copy, obj, lvl, known, v, false), lists, clock);
    var h := Stage(Searching(copy, obj, lvl, known + ToSet(ListAt(lists[v], lvl))), lists, clock);
    assert ThreadOk(Mid(q, level, g), c) && v != c;
    hide Inv, Throws, Gets;
    MidAt(q, level, g.(phase := Inside(g.phase)), h.phase);
    Unlocked(c, v);
    LookStep(q, level, g, v, ReadNeighbors(c), h);
  }

  lemma GetsKeepsInv(q: State, level: nat, g: Stage, h: Stage)
    requires Gets(q, level, g, h)
    ensures Inv(Mid(q, level, g)) && Inv(Mid(q, level, h))
  {
  }

  /** Along a path from a known node, every node becomes known. */
  lemma {:induction false} PathGoes(q: State, level: nat, copy: int, obj: nat, lvl: nat, known: set<nat>, path: seq<nat>, n: nat, lists: Links, clock: nat)
    returns (known': set<nat>)
    requires Inv(Mid(q, level, Stage(Searching(copy, obj, lvl, known), lists, clock)))
    requires IsPath(LayerOf(lists, lvl), path) && path[0] in known && n < |path|
    ensures known <= known' && path[n] in known'
    ensures Gets(q, level, Stage(Searching(copy, obj, lvl, known), lists, clock), Stage(Searching(copy, obj, lvl, known'), lists, clock))
  {
    hide Inv, Goes, Gets;
    var g := Stage(Searching(copy, obj, lvl, known), lists, clock);
    if n == 0 {
      known' := known;
      GetsNowhere(q, level, g);
    } else {
      var before := PathGoes(q, level, copy, obj, lvl, known, path, n - 1, lists, clock);
      var v := path[n - 1];
      assert path[n - 1 + 1] in LayerOf(lists, lvl)[v];
      known' := before + ToSet(ListAt(lists[v], lvl));
      var h, j, k := Stage(Searching(copy, obj, lvl, before), lists, clock), Stage(Expanding(copy, obj, lvl, before, v, false), lists, clock),
                     Stage(Searching(copy, obj, lvl, known'), lists, clock);
      GetsKeepsInv(q, level, g, h);
      PickGoes(q, level, copy, obj, lvl, before, v, lists, clock);
      GetsKeepsInv(q, level, h, j);
      ReadGoes(q, level, copy, obj, lvl, before, v, lists, clock);
      GetsOn(q, level, g, h, j);
      GetsOn(q, level, g, j, k);
    }
  }

  /** Everything reachable can be got to know. */
  lemma {:induction false} AllKnown(q: State, level: nat, copy: int, obj: nat, lvl: nat, known: set<nat>, targets: set<nat>, lists: Links, clock: nat)
    returns (known': set<nat>)
    requires Inv(Mid(q, level, Stage(Searching(copy, obj, lvl, known), lists, clock))) && obj in known
    requires forall v | v in targets :: Reaches(LayerOf(lists, lvl), obj, v)
    ensures known <= known' && targets <= known'
    ensures Gets(q, level, Stage(Searching(copy, obj, lvl, known), lists, clock), Stage(Searching(copy, obj, lvl, known'), lists, clock))
    decreases |targets|
  {
    hide Inv, Goes, Gets;
    var g := Stage(Searching(copy, obj, lvl, known), lists, clock);
    if targets == {} {
      known' := known;
      GetsNowhere(q, level, g);
    } else {
      var v :| v in targets;
      var before := AllKnown(q, level, copy, obj, lvl, known, targets - {v}, lists, clock);
      var path :| IsPath(LayerOf(lists, lvl), path) && path[0] == obj && path[|path| - 1] == v;
      GetsKeepsInv(q, level, g, Stage(Searching(copy, obj, lvl, before), lists, clock));
      known' := PathGoes(q, level, copy, obj, lvl, before, path, |path| - 1, lists, clock);
      GetsOn(q, level, g, Stage(Searching(copy, obj, lvl, before), lists, clock), Stage(Searching(copy, obj, lvl, known'), lists, clock));
    }
  }

  /** The call settles on the neighbours it is going to link. */
  lemma ChooseGoes(q: State, level: nat, copy: int, obj: nat, lvl: nat, known: set<nat>, sel: seq<nat>, lists: Links, clock: nat)
    requires Inv(Mid(q, level, Stage(Searching(copy, obj, lvl, known), lists, clock))) && Selects(known, q.m, sel)
    ensures Gets(q, level, Stage(Searching(copy, obj, lvl, known), lists, clock), Stage(Chosen(copy, obj, lvl, sel), lists, clock))
  {
    var c, g := |q.threads|, Stage(Searching(copy, obj, lvl, known), lists, clock);
    CannotThrow(Mid(q, level, g), c);
    hide Inv, Throws, Gets, Selects;
    PhaseStep(q, level, g, Choose(c, sel), Chosen(copy, obj, lvl, sel));
  }

  /** It writes its own list. */
  lemma WriteOwnGoes(q: State, level: nat, copy: int, obj: nat, lvl: nat, sel: seq<nat>, lists: Links, clock: nat)
    requires Inv(Mid(q, level, Stage(Chosen(copy, obj, lvl, sel), lists, clock)))
    ensures var c := |q.threads|;
            && c < |lists| && lvl < |lists[c]| && |sel| <= |lists[c][lvl].data|
            && Gets(q, level, Stage(Chosen(copy, obj, lvl, sel), lists, clock),
                    Stage(Linking(copy, obj, lvl, sel, 0, clock, false), lists[c := lists[c][lvl := Filled(lists[c][lvl], sel)]], clock + 1))
  {
    var c, g := |q.threads|, Stage(Chosen(copy, obj, lvl, sel), lists, clock);
    CannotThrow(Mid(q, level, g), c);
    assert !Throws(Mid(q, level, g), c);
    hide Inv;
    var h := Stage(Linking(copy, obj, lvl, sel, 0, clock, false), lists[c := lists[c][lvl := Filled(lists[c][lvl], sel)]], clock + 1);
    MidAt(q, level, g, h.phase);
    hide Goes;
    Take(Mid(q, level, g), WriteOwn(c), Mid(q, level, h));
  }

  /** A selected neighbour answers. */
  lemma AnswerGoes(q: State, level: nat, copy: int, obj: nat, lvl: nat, sel: seq<nat>, i: nat, began: nat, list: LinkList, lists: Links, clock: nat)
    requires Inv(Mid(q, level, Stage(Linking(copy, obj, lvl, sel, i, began, false), lists, clock)))
    requires i < |sel| && sel[i] < |lists| && lvl < |lists[sel[i]]|
    requires MayAnswer(|q.threads|, sel[i], Capacity(q.m, lvl), lists[sel[i]][lvl], list)
    ensures Gets(q, level, Stage(Linking(copy, obj, lvl, sel, i, began, false), lists, clock),
                 Stage(Linking(copy, obj, lvl, sel, i + 1, began, false), lists[sel[i] := lists[sel[i]][lvl := list]], clock))
  {
    var c, g := |q.threads|, Stage(Linking(copy, obj, lvl, sel, i, began, false), lists, clock);
    var h := Stage(Linking(copy, obj, lvl, sel, i + 1, began, false), lists[sel[i] := lists[sel[i]][lvl := list]], clock);
    assert ThreadOk(Mid(q, level, g), c) && sel[i] != c;
    hide Inv, Throws, Gets, MayAnswer;
    AnswerStep(q, level, g, list, h);
    hide Enabled, Apply;
    LookStep(q, level, g, sel[i], WriteLink(c, list), h);
  }

  lemma AnswerStep(q: State, level: nat, g: Stage, list: LinkList, h: Stage)
    requires g.phase.Linking? && g.phase.idx < |g.phase.sel|
    requires var n, l := g.phase.sel[g.phase.idx], g.phase.lvl;
             && n < |g.lists| && l < |g.lists[n]| && n != |q.threads|
             && MayAnswer(|q.threads|, n, Capacity(q.m, l), g.lists[n][l], list)
             && h == Stage(g.phase.(idx := g.phase.idx + 1, inside := false), g.lists[n := g.lists[n][l := list]], g.clock)
    ensures var c, n := |q.threads|, g.phase.sel[g.phase.idx];
            var s := Mid(q, level, g.(phase := Inside(g.phase))).(lock := map[c := c, n := c]);
            !Throws(s, c) ==> Enabled(s, WriteLink(c, list)) && Apply(s, WriteLink(c, list)) == Mid(q, level, h)
  {
    hide Throws, MayAnswer;
    MidAt(q, level, g.(phase := Inside(g.phase)), h.phase);
    Unlocked(|q.threads|, g.phase.sel[g.phase.idx]);
  }

  lemma EndLevelGoes(q: State, level: nat, copy: int, obj: nat, lvl: nat, sel: seq<nat>, began: nat, lists: Links, clock: nat)
    requires Inv(Mid(q, level, Stage(Linking(copy, obj, lvl, sel, |sel|, began, false), lists, clock)))
    ensures Gets(q, level, Stage(Linking(copy, obj, lvl, sel, |sel|, began, false), lists, clock), Stage(NextLevel(copy, obj, lvl - 1), lists, clock))
  {
    var c, g := |q.threads|, Stage(Linking(copy, obj, lvl, sel, |sel|, began, false), lists, clock);
    CannotThrow(Mid(q, level, g), c);
    hide Inv, Throws, Gets;
    PhaseStep(q, level, g, EndLevel(c), NextLevel(copy, obj, lvl - 1));
  }

  /** Links a with the list of node c on level l, and those of the nodes in done, as in b. */
  function Underway(a: Links, b: Links, c: nat, l: nat, done: seq<nat>): (links: Links)
    requires |a| == |b|
    ensures |links| == |a|
  {
    seq(|a|, u requires 0 <= u < |a| =>
      if (u == c || u in done) && l < |a[u]| && l < |b[u]| then a[u][l := b[u][l]] else a[u])
  }

  /** What a level step of the sequential insertion gives: the new list, and the answers. */
  lemma StepParts(dist: (Vector, Vector) -> real, vs: seq<Vector>, m: nat, width: nat, c: nat, obj: nat, l: nat, a: Links, b: Links, w: Hnsw.LevelWork)
    requires Hnsw.LevelStep(dist, vs, m, width, c, obj, l, a, b, w)
    ensures |a| == |b| && c < |a| && l < |a[c]| && l < |b[c]| && Hnsw.Overwritten(a[c][l], b[c][l])
    ensures forall u | u in ListAt(b[c], l) ::
              u < |a| && u != c && l < |a[u]| && l < |b[u]| && MayAnswer(c, u, Capacity(m, l), a[u][l], b[u][l])
    ensures forall u | 0 <= u < |a| && u != c && u !in ListAt(b[c], l) :: a[u] == b[u]
    ensures forall u | 0 <= u < |a| :: |a[u]| == |b[u]| && forall k | 0 <= k < |a[u]| && k != l :: a[u][k] == b[u][k]
  {
    hide Delivered, ChosenFrom, LayerOf, DistancesTo, Hnsw.BackLinked, Hnsw.Overwritten;
    forall u | u in ListAt(b[c], l)
      ensures u < |a| && u != c && l < |a[u]| && l < |b[u]| && MayAnswer(c, u, Capacity(m, l), a[u][l], b[u][l])
    {
      assert u in Ids(w.chosen);
      assert Hnsw.BackLinked(dist, vs, c, u, Capacity(m, l), a[u][l], b[u][l]);
    }
  }

  /** The neighbours the sequential insertion chooses may be selected by a call that knows what its search
      delivered. */
  lemma StepSelects(dist: (Vector, Vector) -> real, vs: seq<Vector>, m: nat, width: nat, c: nat, obj: nat, l: nat, a: Links, b: Links, w: Hnsw.LevelWork, known: set<nat>)
    requires Hnsw.LevelStep(dist, vs, m, width, c, obj, l, a, b, w) && Distinct(ListAt(b[c], l)) && Ids(w.found.top) <= known
    ensures Selects(known, m, ListAt(b[c], l))
  {
    StepChoice(dist, vs, m, width, c, obj, l, a, b, w);
    hide *;
    SelectedCount(w.chosen, ListAt(b[c], l));
    SelectsMade(w.found.top, w.chosen, known, m, ListAt(b[c], l));
  }

  lemma StepChoice(dist: (Vector, Vector) -> real, vs: seq<Vector>, m: nat, width: nat, c: nat, obj: nat, l: nat, a: Links, b: Links, w: Hnsw.LevelWork)
    requires Hnsw.LevelStep(dist, vs, m, width, c, obj, l, a, b, w)
    ensures c < |b| && DistinctIds(w.found.top) && DistinctIds(w.chosen) && MayKeep(w.found.top, w.chosen, m)
    ensures FarthestFirst(ListAt(b[c], l), w.chosen) && forall v :: v in ListAt(b[c], l) <==> v in Ids(w.chosen)
  {
    assert DistinctIds(w.found.top);
    hide Delivered, LayerOf, DistancesTo, Hnsw.Answered, Linked, Hnsw.Overwritten, Pruned, FarthestFirst, ListAt;
    Hnsw.KeptDistinct(w.chosen, w.found.top);
    assert InRange(w.found.top, |vs|) && ChosenFrom(dist, vs, w.found.top, w.chosen, w.order, m);
  }

  lemma SelectedCount(kept: Queue, sel: seq<nat>)
    requires DistinctIds(kept) && Distinct(sel) && forall v :: v in sel <==> v in Ids(kept)
    ensures |sel| == |kept| && forall i | 0 <= i < |sel| :: sel[i] in Ids(kept)
  {
    Hnsw.IdsCount(kept);
    Hnsw.DistinctCount(sel);
    assert ToSet(sel) == Ids(kept);
  }

  lemma SelectsMade(top: Queue, kept: Queue, known: set<nat>, m: nat, sel: seq<nat>)
    requires DistinctIds(top) && Ids(top) <= known && MayKeep(top, kept, m)
    requires |sel| == |kept| && Distinct(sel) && FarthestFirst(sel, kept) && forall i | 0 <= i < |sel| :: sel[i] in Ids(kept)
    ensures Selects(known, m, sel)
  {
  }

  lemma StepReaches(dist: (Vector, Vector) -> real, vs: seq<Vector>, m: nat, width: nat, c: nat, obj: nat, l: nat, a: Links, b: Links, w: Hnsw.LevelWork)
    requires Hnsw.LevelStep(dist, vs, m, width, c, obj, l, a, b, w)
    ensures forall v | v in Ids(w.found.top) :: Reaches(LayerOf(a, l), obj, v)
  {
    hide LayerOf, DistancesTo, ChosenFrom, Hnsw.Answered, Linked, Hnsw.Overwritten;
  }

  /** All selected neighbours answer, one after the other. */
  lemma {:induction false} AnswersGo(q: State, level: nat, copy: int, obj: nat, lvl: nat, i: nat, began: nat, a: Links, b: Links, clock: nat)
    requires var c := |q.threads|; |a| == |b| && c < |a| && lvl < |a[c]| && lvl < |b[c]|
    requires forall u | u in ListAt(b[|q.threads|], lvl) ::
               u < |a| && u != |q.threads| && lvl < |a[u]| && lvl < |b[u]| && MayAnswer(|q.threads|, u, Capacity(q.m, lvl), a[u][lvl], b[u][lvl])
    requires var sel := ListAt(b[|q.threads|], lvl); i <= |sel| && Distinct(sel)
    requires Inv(Mid(q, level, Stage(Linking(copy, obj, lvl, ListAt(b[|q.threads|], lvl), 0, began, false), Underway(a, b, |q.threads|, lvl, []), clock)))
    ensures var c := |q.threads|;
            var sel := ListAt(b[c], lvl);
            Gets(q, level, Stage(Linking(copy, obj, lvl, sel, 0, began, false), Underway(a, b, c, lvl, []), clock),
                 Stage(Linking(copy, obj, lvl, sel, i, began, false), Underway(a, b, c, lvl, sel[..i]), clock))
  {
    hide Inv, Goes, Gets, MayAnswer, ListAt;
    var c := |q.threads|;
    var sel := ListAt(b[c], lvl);
    var g := Stage(Linking(copy, obj, lvl, sel, 0, began, false), Underway(a, b, c, lvl, []), clock);
    if i == 0 {
      assert sel[..0] == [];
      GetsNowhere(q, level, g);
    } else {
      AnswersGo(q, level, copy, obj, lvl, i - 1, began, a, b, clock);
      var lists, n := Underway(a, b, c, lvl, sel[..i - 1]), sel[i - 1];
      var h := Stage(Linking(copy, obj, lvl, sel, i - 1, began, false), lists, clock);
      GetsKeepsInv(q, level, g, h);
      assert n in sel && n !in sel[..i - 1] && lists[n] == a[n];
      AnswerGoes(q, level, copy, obj, lvl, sel, i - 1, began, b[n][lvl], lists, clock);
      OneMoreDone(a, b, c, lvl, sel, i - 1);
      GetsOn(q, level, g, h, Stage(Linking(copy, obj, lvl, sel, i, began, false), Underway(a, b, c, lvl, sel[..i]), clock));
    }
  }

  lemma OneMoreDone(a: Links, b: Links, c: nat, l: nat, sel: seq<nat>, i: nat)
    requires |a| == |b| && i < |sel| && sel[i] < |a| && l < |a[sel[i]]| && l < |b[sel[i]]| && sel[i] != c && sel[i] !in sel[..i]
    ensures var lists := Underway(a, b, c, l, sel[..i]);
            Underway(a, b, c, l, sel[..i + 1]) == lists[sel[i] := lists[sel[i]][l := b[sel[i]][l]]]
  {
    assert sel[..i + 1] == sel[..i] + [sel[i]];
  }

  /** When all have answered, level l is as in b. */
  lemma AllDone(a: Links, b: Links, c: nat, l: nat, sel: seq<nat>)
    requires |a| == |b| && c < |a|
    requires forall u | 0 <= u < |a| && u != c && u !in sel :: a[u] == b[u]
    requires forall u | 0 <= u < |a| :: |a[u]| == |b[u]| && forall k | 0 <= k < |a[u]| && k != l :: a[u][k] == b[u][k]
    ensures Underway(a, b, c, l, sel) == b
  {
    var lists := Underway(a, b, c, l, sel);
    forall u | 0 <= u < |a|
      ensures lists[u] == b[u]
    {
    }
  }

  /** One level: the call gets to know what the sequential search delivers, selects what the sequential insertion
      chooses, and leaves the links as that does. */
  lemma LevelGoes(q: State, level: nat, copy: int, obj: nat, lvl: nat, dist: (Vector, Vector) -> real, vs: seq<Vector>, width: nat, a: Links, b: Links, w: Hnsw.LevelWork, clock: nat)
    requires Inv(Mid(q, level, Stage(Searching(copy, obj, lvl, {obj}), a, clock)))
    requires Hnsw.LevelStep(dist, vs, q.m, width, |q.threads|, obj, lvl, a, b, w) && Distinct(ListAt(b[|q.threads|], lvl))
    ensures Gets(q, level, Stage(Searching(copy, obj, lvl, {obj}), a, clock), Stage(NextLevel(copy, obj, lvl - 1), b, clock + 1))
  {
    hide Inv, Goes, Gets, MayAnswer;
    var c := |q.threads|;
    var sel, g := ListAt(b[c], lvl), Stage(Searching(copy, obj, lvl, {obj}), a, clock);
    StepReaches(dist, vs, q.m, width, c, obj, lvl, a, b, w);
    var known := AllKnown(q, level, copy, obj, lvl, {obj}, Ids(w.found.top), a, clock);
    var h := Stage(Searching(copy, obj, lvl, known), a, clock);
    StepSelects(dist, vs, q.m, width, c, obj, lvl, a, b, w, known);
    StepParts(dist, vs, q.m, width, c, obj, lvl, a, b, w);
    hide Hnsw.LevelStep, Selects;
    GetsKeepsInv(q, level, g, h);
    ChooseGoes(q, level, copy, obj, lvl, known, sel, a, clock);
    var j := Stage(Chosen(copy, obj, lvl, sel), a, clock);
    GetsOn(q, level, g, h, j);
    GetsKeepsInv(q, level, g, j);
    LinkingGoes(q, level, copy, obj, lvl, a, b, clock);
    GetsOn(q, level, g, j, Stage(NextLevel(copy, obj, lvl - 1), b, clock + 1));
  }

  /** Its second half: the links are written. */
  lemma LinkingGoes(q: State, level: nat, copy: int, obj: nat, lvl: nat, a: Links, b: Links, clock: nat)
    requires var c := |q.threads|;
             && |a| == |b| && c < |a| && lvl < |a[c]| && lvl < |b[c]| && Hnsw.Overwritten(a[c][lvl], b[c][lvl])
             && Distinct(ListAt(b[c], lvl)) && Inv(Mid(q, level, Stage(Chosen(copy, obj, lvl, ListAt(b[c], lvl)), a, clock)))
    requires forall u | u in ListAt(b[|q.threads|], lvl) ::
               u < |a| && u != |q.threads| && lvl < |a[u]| && lvl < |b[u]| && MayAnswer(|q.threads|, u, Capacity(q.m, lvl), a[u][lvl], b[u][lvl])
    requires forall u | 0 <= u < |a| && u != |q.threads| && u !in ListAt(b[|q.threads|], lvl) :: a[u] == b[u]
    requires forall u | 0 <= u < |a| :: |a[u]| == |b[u]| && forall k | 0 <= k < |a[u]| && k != lvl :: a[u][k] == b[u][k]
    ensures Gets(q, level, Stage(Chosen(copy, obj, lvl, ListAt(b[|q.threads|], lvl)), a, clock), Stage(NextLevel(copy, obj, lvl - 1), b, clock + 1))
  {
    hide Inv, Goes, Gets, MayAnswer, Distinct;
    var c := |q.threads|;
    var sel := ListAt(b[c], lvl);
    var j, k := Stage(Chosen(copy, obj, lvl, sel), a, clock), Stage(Linking(copy, obj, lvl, sel, 0, clock, false), Underway(a, b, c, lvl, []), clock + 1);
    WriteOwnGoes(q, level, copy, obj, lvl, sel, a, clock);
    OwnFilled(a, b, c, lvl);
    GetsKeepsInv(q, level, j, k);
    AnswersGo(q, level, copy, obj, lvl, |sel|, clock, a, b, clock + 1);
    assert sel[..|sel|] == sel;
    AllDone(a, b, c, lvl, sel);
    var n := Stage(Linking(copy, obj, lvl, sel, |sel|, clock, false), b, clock + 1);
    GetsKeepsInv(q, level, k, n);
    EndLevelGoes(q, level, copy, obj, lvl, sel, clock, b, clock + 1);
    GetsOn(q, level, j, k, n);
    GetsOn(q, level, j, n, Stage(NextLevel(copy, obj, lvl - 1), b, clock + 1));
  }

  /** Writing the selected ids over the front of the old list gives the new one. */
  lemma OwnFilled(a: Links, b: Links, c: nat, l: nat)
    requires |a| == |b| && c < |a| && l < |a[c]| && l < |b[c]| && Hnsw.Overwritten(a[c][l], b[c][l])
    ensures var sel := ListAt(b[c], l);
            |sel| <= |a[c][l].data| && Underway(a, b, c, l, []) == a[c := a[c][l := Filled(a[c][l], sel)]]
  {
    assert b[c][l].data == b[c][l].data[..b[c][l].size] + b[c][l].data[b[c][l].size..];
  }

  lemma TraceHasSteps(dist: (Vector, Vector) -> real, vs: seq<Vector>, m: nat, width: nat, c: nat, obj: nat, top: nat, trace: Hnsw.Trace)
    requires Hnsw.LevelSteps(dist, vs, m, width, c, obj, top, trace)
    ensures |trace.steps| == |trace.works| + 1
  {
  }

  /** The k-th step of an insertion, and that the new list it writes is the one in the end. */
  lemma StepKnown(dist: (Vector, Vector) -> real, vs: seq<Vector>, m: nat, width: nat, c: nat, obj: nat, top: nat, trace: Hnsw.Trace, k: nat)
    requires Hnsw.LevelSteps(dist, vs, m, width, c, obj, top, trace) && 0 < k <= |trace.works| == top + 1
    ensures var l: nat := top - (k - 1);
            && Hnsw.LevelStep(dist, vs, m, width, c, obj, l, trace.steps[k - 1], trace.steps[k], trace.works[k - 1])
            && c < |trace.steps[k]| == |trace.steps[top + 1]| && ListAt(trace.steps[k][c], l) == ListAt(trace.steps[top + 1][c], l)
  {
    hide Hnsw.LevelStep;
    var l: nat := top - (k - 1);
    assert Hnsw.StepAt(dist, vs, m, width, c, obj, top, trace, k - 1);
    Hnsw.StepsTouch(dist, vs, m, width, c, obj, top, trace, l, k, top + 1);
    hide Hnsw.LevelSteps;
    StepNodes(dist, vs, m, width, c, obj, l, trace.steps[k - 1], trace.steps[k], trace.works[k - 1]);
  }

  lemma StepNodes(dist: (Vector, Vector) -> real, vs: seq<Vector>, m: nat, width: nat, c: nat, obj: nat, l: nat, a: Links, b: Links, w: Hnsw.LevelWork)
    requires Hnsw.LevelStep(dist, vs, m, width, c, obj, l, a, b, w)
    ensures |a| == |b| && c < |a| && l < |a[c]| && l < |b[c]|
  {
    hide Delivered, ChosenFrom, LayerOf, DistancesTo, Hnsw.Answered, Linked, Hnsw.Overwritten;
  }

  /** The levels from top downwards, k of them. */
  lemma {:induction false} LevelsGo(q: State, level: nat, copy: int, obj: nat, top: nat, dist: (Vector, Vector) -> real, vs: seq<Vector>, width: nat, trace: Hnsw.Trace, after: Links, clock: nat, k: nat)
    requires Hnsw.LevelSteps(dist, vs, q.m, width, |q.threads|, obj, top, trace) && |trace.works| == top + 1 && trace.steps[top + 1] == after
    requires |q.threads| < |after| && forall l | 0 <= l <= top :: Distinct(ListAt(after[|q.threads|], l))
    requires k <= top + 1 && Inv(Mid(q, level, Stage(Searching(copy, obj, top, {obj}), trace.steps[0], clock)))
    ensures Gets(q, level, Stage(Searching(copy, obj, top, {obj}), trace.steps[0], clock), Stage(NextLevel(copy, obj, top - k), trace.steps[k], clock + k))
  {
    hide Inv, Goes, Gets, Distinct, Hnsw.LevelStep, Hnsw.LevelSteps;
    assert |trace.steps| == top + 2 by { TraceHasSteps(dist, vs, q.m, width, |q.threads|, obj, top, trace); }
    var g := Stage(Searching(copy, obj, top, {obj}), trace.steps[0], clock);
    if k == 0 {
      GetsNowhere(q, level, g);
    } else {
      LevelsGo(q, level, copy, obj, top, dist, vs, width, trace, after, clock, k - 1);
      var c, lvl: nat := |q.threads|, top - (k - 1);
      var h := Stage(NextLevel(copy, obj, lvl), trace.steps[k - 1], clock + (k - 1));
      GetsKeepsInv(q, level, g, h);
      StepKnown(dist, vs, q.m, width, c, obj, top, trace, k);
      LevelGoes(q, level, copy, obj, lvl, dist, vs, width, trace.steps[k - 1], trace.steps[k], trace.works[k - 1], clock + (k - 1));
      GetsOn(q, level, g, h, Stage(NextLevel(copy, obj, top - k), trace.steps[k], clock + k));
    }
  }

  // ---------------------------------------------------------------- a whole insertion

  /** Nobody is on the way: the elements have these levels and links. */
  function Quiet(m: nat, levels: seq<nat>, links: Links, entry: int, maxlevel: int, clock: nat): State {
    State(m, seq(|levels|, c requires 0 <= c < |levels| => Thread(levels[c], Done)), links, map[], None, entry, maxlevel, clock)
  }

  /** The entry point of a sequential index: an element of the highest level there is. */
  ghost predicate IsEntry(levels: seq<nat>, entry: int, maxlevel: int) {
    if levels == [] then entry == -1 && maxlevel == -1
    else 0 <= entry < |levels| && levels[entry] == maxlevel
  }

  lemma QuietIsFine(m: nat, levels: seq<nat>, links: Links, entry: int, maxlevel: int, clock: nat)
    requires GoodGraph(links, levels, m) && IsEntry(levels, entry, maxlevel)
    ensures Inv(Quiet(m, levels, links, entry, maxlevel, clock))
  {
    var s := Quiet(m, levels, links, entry, maxlevel, clock);
    assert LevelsOf(s) == levels;
    forall u, l | 0 <= u < |links| && 0 <= l < |links[u]|
      ensures ListOk(s, u, l)
    {
      assert GoodNode(links[u], m, u, levels);
    }
    assert forall u | 0 <= u < |links| :: GoodNode(links[u], m, u, levels);
    hide GoodGraph, GoodNode, GoodList, ListOk;
  }

  /** The call has its number and its blank lists. */
  function Newcomer(q: State, level: nat): State {
    q.(threads := q.threads + [Thread(level, Arrived)], lists := q.lists + [BlankLists(q.m, level)])
  }

  /** The call takes its own lock and the global one, and reads the maximum level. */
  lemma CallBegins(q: State, level: nat)
    requires Inv(q) && q.lock == map[] && q.global == None && |q.lists| == |q.threads|
    ensures Enabled(q, Arrive(level)) && Apply(q, Arrive(level)) == Newcomer(q, level)
    ensures var g := Stage(AtEntry(q.maxlevel), q.lists + [BlankLists(q.m, level)], q.clock);
            Goes(Newcomer(q, level), |q.threads|, Mid(q, level, g)) && Inv(Mid(q, level, g))
  {
    var c, s1 := |q.threads|, Newcomer(q, level);
    InvArrive(q, level);
    CannotThrow(s1, c);
    hide Inv, Throws;
    var s2 := s1.(threads := q.threads + [Thread(level, AtGlobal)], lock := map[c := c]);
    var s3 := s2.(threads := q.threads + [Thread(level, GotGlobal(q.maxlevel))], global := Some(c));
    var g := Stage(AtEntry(q.maxlevel), s1.lists, q.clock);
    Take(s1, LockOwn(c), s2);
    CannotThrow(s2, c);
    Take(s2, LockGlobal(c), s3);
    CannotThrow(s3, c);
    Take(s3, MaybeUnlockGlobal(c), Mid(q, level, g));
    hide Goes;
    GoesOn(s1, c, s2, s3);
    GoesOn(s1, c, s3, Mid(q, level, g));
  }

  /** With an entry point the call sets out on its descent. */
  lemma EntryGoes(q: State, level: nat, paths: seq<seq<nat>>, lists: Links, clock: nat)
    requires Inv(Mid(q, level, Stage(AtEntry(q.maxlevel), lists, clock))) && q.entry >= 0 && q.maxlevel >= 0
    ensures Gets(q, level, Stage(AtEntry(q.maxlevel), lists, clock), Stage(InDescent(level, q.maxlevel, q.entry, paths, 0), lists, clock))
  {
    var c, g := |q.threads|, Stage(AtEntry(q.maxlevel), lists, clock);
    CannotThrow(Mid(q, level, g), c);
    hide Inv, Throws, Gets;
    PhaseStep(q, level, g, ReadEntry(c), InDescent(level, q.maxlevel, q.entry, paths, 0));
  }

  /** The state after an insertion. */
  function Over(q: State, level: nat, lists: Links, clock: nat): State {
    State(q.m, q.threads + [Thread(level, Done)], lists, map[], None,
          if level > q.maxlevel then |q.threads| else q.entry, if level > q.maxlevel then level else q.maxlevel, clock)
  }

  /** The call is about to return. */
  function Returning(q: State, level: nat, lists: Links, clock: nat): State {
    var s := Mid(q, level, Stage(Leaving(q.maxlevel), lists, clock));
    if level > q.maxlevel then s.(entry := |q.threads|, maxlevel := level) else s
  }

  /** The call publishes its node if it is the highest. */
  lemma Publishes(q: State, level: nat, lists: Links, clock: nat)
    requires Inv(Mid(q, level, Stage(Publishing(q.maxlevel), lists, clock)))
    ensures Goes(Mid(q, level, Stage(Publishing(q.maxlevel), lists, clock)), |q.threads|, Returning(q, level, lists, clock))
    ensures Inv(Returning(q, level, lists, clock))
  {
    var c, s := |q.threads|, Mid(q, level, Stage(Publishing(q.maxlevel), lists, clock));
    CannotThrow(s, c);
    hide Inv, Throws, Goes;
    if level > q.maxlevel {
      var s1 := Mid(q, level, Stage(Published(q.maxlevel), lists, clock)).(entry := c);
      Take(s, SetEntry(c), s1);
      SetsLevel(q, level, lists, clock);
      GoesOn(s, c, s1, Returning(q, level, lists, clock));
    } else {
      Take(s, SetEntry(c), Returning(q, level, lists, clock));
    }
  }

  lemma SetsLevel(q: State, level: nat, lists: Links, clock: nat)
    requires level > q.maxlevel && Inv(Mid(q, level, Stage(Published(q.maxlevel), lists, clock)).(entry := |q.threads|))
    ensures Goes(Mid(q, level, Stage(Published(q.maxlevel), lists, clock)).(entry := |q.threads|), |q.threads|, Returning(q, level, lists, clock))
    ensures Inv(Returning(q, level, lists, clock))
  {
    var s := Mid(q, level, Stage(Published(q.maxlevel), lists, clock)).(entry := |q.threads|);
    CannotThrow(s, |q.threads|);
    hide Inv, Throws, Goes;
    Take(s, SetMaxLevel(|q.threads|), Returning(q, level, lists, clock));
  }

  lemma CallEnds(q: State, level: nat, lists: Links, clock: nat)
    requires Inv(Mid(q, level, Stage(Publishing(q.maxlevel), lists, clock)))
    ensures Goes(Mid(q, level, Stage(Publishing(q.maxlevel), lists, clock)), |q.threads|, Over(q, level, lists, clock))
    ensures Inv(Over(q, level, lists, clock))
  {
    hide Inv, Throws, Goes;
    var c, s := |q.threads|, Mid(q, level, Stage(Publishing(q.maxlevel), lists, clock));
    var leaving := Returning(q, level, lists, clock);
    Publishes(q, level, lists, clock);
    CannotThrow(leaving, c);
    assert map[c := c] - {c} == map[];
    Take(leaving, Leave(c), Over(q, level, lists, clock));
    GoesOn(s, c, leaving, Over(q, level, lists, clock));
  }

  /** A call arrives at s when nobody else is on the way, and its steps lead to t. */
  ghost predicate Inserted(s: State, level: nat, t: State) {
    Enabled(s, Arrive(level)) && Goes(Apply(s, Arrive(level)), |s.threads|, t)
  }

  /** Whatever the sequential insertion does to a graph with elements, the steps of one call do: from its arrival,
      when nobody else is on the way, to its return. */
  lemma InsertionIsRun(m: nat, levels: seq<nat>, links: Links, entry: int, maxlevel: int, clock: nat, level: nat,
                       dist: (Vector, Vector) -> real, vs: seq<Vector>, width: nat, obj: nat, after: Links, trace: Hnsw.Trace)
    requires GoodGraph(links, levels, m) && IsEntry(levels, entry, maxlevel) && 0 < |levels| < |vs|
    requires Descends(links + [BlankLists(m, level)], DistancesTo(dist, vs[|levels|], vs[..|levels| + 1]), maxlevel, level, entry, obj)
    requires Hnsw.Insertion(dist, vs, m, width, |levels|, obj, Hnsw.Smaller(level, maxlevel), links + [BlankLists(m, level)], after, trace)
    requires GoodGraph(after, levels + [level], m)
    ensures Inserted(Quiet(m, levels, links, entry, maxlevel, clock), level,
                     Quiet(m, levels + [level], after, if level > maxlevel then |levels| else entry,
                           if level > maxlevel then level else maxlevel, clock + (Hnsw.Smaller(level, maxlevel) + 1)))
  {
    var q, top := Quiet(m, levels, links, entry, maxlevel, clock), Hnsw.Smaller(level, maxlevel);
    QuietIsFine(m, levels, links, entry, maxlevel, clock);
    assert |links| == |levels|;
    OverIsQuiet(m, levels, links, entry, maxlevel, clock, level, after, clock + (top + 1));
    hide Inv, Hnsw.Insertion, GoodGraph, Descends, BlankLists, DistancesTo, Over, Inserted;
    AloneInserts(q, levels, level, dist, vs, width, obj, after, trace);
  }

  lemma AloneInserts(q: State, levels: seq<nat>, level: nat, dist: (Vector, Vector) -> real, vs: seq<Vector>, width: nat, obj: nat, after: Links, trace: Hnsw.Trace)
    requires Inv(q) && q.lock == map[] && q.global == None && |q.lists| == |q.threads| == |levels| < |vs| && q.entry >= 0 && q.maxlevel >= 0
    requires Descends(q.lists + [BlankLists(q.m, level)], DistancesTo(dist, vs[|levels|], vs[..|levels| + 1]), q.maxlevel, level, q.entry, obj)
    requires Hnsw.Insertion(dist, vs, q.m, width, |levels|, obj, Hnsw.Smaller(level, q.maxlevel), q.lists + [BlankLists(q.m, level)], after, trace)
    requires GoodGraph(after, levels + [level], q.m)
    ensures Inserted(q, level, Over(q, level, after, q.clock + (Hnsw.Smaller(level, q.maxlevel) + 1)))
  {
    hide Inv, Goes, Gets, Hnsw.Insertion, GoodGraph, Descends, BlankLists, Enabled, Apply, DistancesTo, Over, Inserted;
    var g := Stage(AtEntry(q.maxlevel), q.lists + [BlankLists(q.m, level)], q.clock);
    assert Inv(Mid(q, level, g)) by { CallBegins(q, level); }
    OnTheWay(q, levels, level, dist, vs, width, obj, after, trace);
    WayIsInserted(q, level, after, q.clock + (Hnsw.Smaller(level, q.maxlevel) + 1));
  }

  /** A call that gets from reading the entry point to the point of publishing has been made from its arrival to its
      return. */
  lemma WayIsInserted(q: State, level: nat, after: Links, clock: nat)
    requires Inv(q) && q.lock == map[] && q.global == None && |q.lists| == |q.threads|
    requires Gets(q, level, Stage(AtEntry(q.maxlevel), q.lists + [BlankLists(q.m, level)], q.clock), Stage(Publishing(q.maxlevel), after, clock))
    ensures Inserted(q, level, Over(q, level, after, clock))
  {
    hide Inv, Goes, Gets, BlankLists, Enabled, Apply;
    var g, h := Stage(AtEntry(q.maxlevel), q.lists + [BlankLists(q.m, level)], q.clock), Stage(Publishing(q.maxlevel), after, clock);
    CallBegins(q, level);
    GetsMeans(q, level, g, h);
    CallEnds(q, level, after, clock);
    hide Mid, Over;
    GoesOn(Newcomer(q, level), |q.threads|, Mid(q, level, g), Mid(q, level, h));
    GoesOn(Newcomer(q, level), |q.threads|, Mid(q, level, h), Over(q, level, after, clock));
  }

  lemma OverIsQuiet(m: nat, levels: seq<nat>, links: Links, entry: int, maxlevel: int, clock: nat, level: nat, after: Links, clock': nat)
    ensures Over(Quiet(m, levels, links, entry, maxlevel, clock), level, after, clock') ==
            Quiet(m, levels + [level], after, if level > maxlevel then |levels| else entry, if level > maxlevel then level else maxlevel, clock')
  {
    assert Over(Quiet(m, levels, links, entry, maxlevel, clock), level, after, clock').threads == Quiet(m, levels + [level], after, 0, 0, 0).threads;
  }

  lemma GetsMeans(q: State, level: nat, g: Stage, h: Stage)
    requires Gets(q, level, g, h)
    ensures Goes(Mid(q, level, g), |q.threads|, Mid(q, level, h)) && Inv(Mid(q, level, h))
  {
  }

  /** Its middle part: the descent, and then level by level. */
  lemma OnTheWay(q: State, levels: seq<nat>, level: nat, dist: (Vector, Vector) -> real, vs: seq<Vector>, width: nat, obj: nat, after: Links, trace: Hnsw.Trace)
    requires |levels| == |q.threads| < |vs| && q.entry >= 0 && q.maxlevel >= 0
    requires Inv(Mid(q, level, Stage(AtEntry(q.maxlevel), q.lists + [BlankLists(q.m, level)], q.clock)))
    requires Descends(q.lists + [BlankLists(q.m, level)], DistancesTo(dist, vs[|levels|], vs[..|levels| + 1]), q.maxlevel, level, q.entry, obj)
    requires Hnsw.Insertion(dist, vs, q.m, width, |levels|, obj, Hnsw.Smaller(level, q.maxlevel), q.lists + [BlankLists(q.m, level)], after, trace)
    requires GoodGraph(after, levels + [level], q.m)
    ensures Gets(q, level, Stage(AtEntry(q.maxlevel), q.lists + [BlankLists(q.m, level)], q.clock),
                 Stage(Publishing(q.maxlevel), after, q.clock + (Hnsw.Smaller(level, q.maxlevel) + 1)))
  {
    hide Inv, Goes, Gets, Hnsw.LevelSteps, DistancesTo;
    var lists, clock, copy := q.lists + [BlankLists(q.m, level)], q.clock, q.maxlevel;
    var ds := DistancesTo(dist, vs[|levels|], vs[..|levels| + 1]);
    var paths :| IsDescent(lists, ds, copy, level, q.entry, paths, obj);
    var g, h := Stage(AtEntry(copy), lists, clock), Stage(InDescent(level, copy, q.entry, paths, 0), lists, clock);
    EntryGoes(q, level, paths, lists, clock);
    GetsKeepsInv(q, level, g, h);
    DescentGoes(q, level, copy, ds, q.entry, paths, obj, |paths|, lists, clock);
    var top := Hnsw.Smaller(level, copy);
    var j := Stage(Searching(copy, obj, top, {obj}), lists, clock);
    assert InDescent(level, copy, q.entry, paths, |paths|) == Searching(copy, obj, top, {obj});
    GetsOn(q, level, g, h, j);
    GetsKeepsInv(q, level, h, j);
    forall l | 0 <= l <= top
      ensures Distinct(ListAt(after[|levels|], l))
    {
      ListOf(after, levels + [level], q.m, l, |levels|);
    }
    hide GoodGraph, IsDescent;
    LevelsGo(q, level, copy, obj, top, dist, vs, width, trace, after, clock, top + 1);
    GetsOn(q, level, g, j, Stage(Publishing(copy), after, clock + (top + 1)));
  }

  /** So are those of the very first call. */
  lemma FirstIsRun(m: nat, clock: nat, level: nat)
    ensures Inserted(Quiet(m, [], [], -1, -1, clock), level, Quiet(m, [level], [BlankLists(m, level)], 0, level, clock))
  {
    var q, lists := Quiet(m, [], [], -1, -1, clock), [BlankLists(m, level)];
    assert q.threads == [] && q.lists + [BlankLists(q.m, level)] == lists;
    hide BlankLists;
    QuietIsFine(m, [], [], -1, -1, clock);
    hide Inv, Goes, Throws;
    CallBegins(q, level);
    FirstGoes(q, level, lists, clock);
    FirstEnds(q, level, lists, clock);
    var s4 := Mid(q, level, Stage(Publishing(-1), lists, clock)).(entry := 0, maxlevel := level);
    GoesOn(Newcomer(q, level), 0, Mid(q, level, Stage(AtEntry(-1), lists, clock)), s4);
    GoesOn(Newcomer(q, level), 0, s4, Quiet(m, [level], lists, 0, level, clock));
  }

  lemma FirstGoes(q: State, level: nat, lists: Links, clock: nat)
    requires q.threads == [] && q.entry == -1 && q.maxlevel == -1 && Inv(Mid(q, level, Stage(AtEntry(-1), lists, clock)))
    ensures var s4 := Mid(q, level, Stage(Publishing(-1), lists, clock)).(entry := 0, maxlevel := level);
            Goes(Mid(q, level, Stage(AtEntry(-1), lists, clock)), 0, s4) && Inv(s4)
  {
    hide Inv, Goes, Throws;
    var s1 := Mid(q, level, Stage(AtEntry(-1), lists, clock));
    var s2 := Mid(q, level, Stage(FirstEntry, lists, clock));
    var s3 := Mid(q, level, Stage(FirstLevel, lists, clock)).(entry := 0);
    var s4 := Mid(q, level, Stage(Publishing(-1), lists, clock)).(entry := 0, maxlevel := level);
    CannotThrow(s1, 0);
    Take(s1, ReadEntry(0), s2);
    CannotThrow(s2, 0);
    Take(s2, SetFirstEntry(0), s3);
    CannotThrow(s3, 0);
    Take(s3, SetFirstLevel(0), s4);
    GoesOn(s1, 0, s2, s3);
    GoesOn(s1, 0, s3, s4);
  }

  lemma FirstEnds(q: State, level: nat, lists: Links, clock: nat)
    requires q == Quiet(q.m, [], [], -1, -1, clock)
    requires Inv(Mid(q, level, Stage(Publishing(-1), lists, clock)).(entry := 0, maxlevel := level))
    ensures Goes(Mid(q, level, Stage(Publishing(-1), lists, clock)).(entry := 0, maxlevel := level), 0, Quiet(q.m, [level], lists, 0, level, clock))
  {
    hide Inv, Goes, Throws;
    var s4 := Mid(q, level, Stage(Publishing(-1), lists, clock)).(entry := 0, maxlevel := level);
    var s5 := s4.(threads := [Thread(level, Published(-1))]);
    var s6 := s4.(threads := [Thread(level, Leaving(-1))]);
    var t := Quiet(q.m, [level], lists, 0, level, clock);
    CannotThrow(s4, 0);
    Take(s4, SetEntry(0), s5);
    CannotThrow(s5, 0);
    Take(s5, SetMaxLevel(0), s6);
    CannotThrow(s6, 0);
    assert map[0 := 0] - {0} == map[] && t.threads == [Thread(level, Done)];
    Take(s6, Leave(0), t);
    GoesOn(s4, 0, s5, s6);
    GoesOn(s4, 0, s6, t);
  }

  // ---------------------------------------------------------------- the sequential program as a run

  /** The state of a sequential index, as far as links are concerned. */
  ghost function StateOf(alg: Hnsw.HierarchicalNSW, clock: nat): State
    requires alg.Shape()
    reads alg, alg.levels, alg.links
  {
    Quiet(alg.m, alg.Levels(), alg.AllLinks(), alg.enterpoint, alg.maxlevel, clock)
  }

  /** addPoint of the sequential index takes the same way as a call of the step relation. */
  method AddPointAsRun(alg: Hnsw.HierarchicalNSW, point: Vector, name: nat, level: int, randomLevel: nat, ghost clock: nat)
    returns (status: Hnsw.Status, cur: nat, ghost clock': nat)
    requires alg.Valid() && alg.count < alg.maxElements
    modifies alg, alg.vectors, alg.labels, alg.levels, alg.links
    ensures alg.Valid() && status == Hnsw.Ok && alg.count == old(alg.count) + 1
    ensures alg.Vectors() == old(alg.Vectors()) + [point] && alg.labels[..alg.count] == old(alg.labels[..alg.count]) + [name]
    ensures alg.Levels() == old(alg.Levels()) + [if level > 0 then level else randomLevel]
    ensures Inserted(old(StateOf(alg, clock)), if level > 0 then level else randomLevel, StateOf(alg, clock'))
  {
    hide GoodGraph, Hnsw.NobodyAlone, Hnsw.HierarchicalNSW.LookupOk, Hnsw.Insertion, Descends, NoneEmptied, Inserted, BlankLists, DistancesTo, Quiet;
    var curlevel: nat := if level > 0 then level else randomLevel;
    ghost var levels, links, entry, maxlevel := alg.Levels(), alg.AllLinks(), alg.enterpoint, alg.maxlevel;
    assert IsEntry(levels, entry, maxlevel);
    ghost var obj, trace;
    status, cur, obj, trace := alg.AddPoint(point, name, level, randomLevel);
    if cur == 0 {
      clock' := clock;
      assert levels == [] && links == [] && alg.Levels() == [curlevel];
      FirstIsRun(alg.m, clock, curlevel);
    } else {
      clock' := clock + (Hnsw.Smaller(curlevel, maxlevel) + 1);
      ghost var vs := alg.vectors[..];
      assert vs[..cur + 1] == alg.Vectors() && vs[cur] == point;
      InsertionIsRun(alg.m, levels, links, entry, maxlevel, clock, curlevel, alg.dist, vs, alg.efConstruction, obj, alg.AllLinks(), trace);
    }
  }

  /** A run may go on with the steps of a call. */
  lemma {:induction false} RunGoesOn(m: nat, events: seq<Event>, states: seq<State>, c: nat, more: seq<Event>, t: State) returns (states': seq<State>)
    requires IsRun(m, events, states) && Leads(states[|events|], c, more, t)
    ensures IsRun(m, events + more, states') && states' != [] && states'[|states'| - 1] == t
    decreases |more|
  {
    hide Enabled, Apply;
    if more == [] {
      assert events + more == events;
      states' := states;
    } else {
      var next := Apply(states[|events|], more[0]);
      OneMoreStep(m, events, states, more[0]);
      states' := RunGoesOn(m, events + [more[0]], states + [next], c, more[1..], t);
      assert events + more == events + [more[0]] + more[1..];
    }
  }

  lemma OneMoreStep(m: nat, events: seq<Event>, states: seq<State>, e: Event)
    requires IsRun(m, events, states) && Enabled(states[|events|], e)
    ensures IsRun(m, events + [e], states + [Apply(states[|events|], e)])
  {
    hide Enabled, Apply;
    var events', states' := events + [e], states + [Apply(states[|events|], e)];
    forall i | 0 <= i < |events'|
      ensures Enabled(states'[i], events'[i]) && states'[i + 1] == Apply(states'[i], events'[i])
    {
      if i < |events| { assert Enabled(states[i], events[i]) && states[i + 1] == Apply(states[i], events[i]); }
    }
  }

  /** An insertion makes a run longer. */
  lemma InsertionExtends(m: nat, events: seq<Event>, states: seq<State>, level: nat, t: State) returns (events': seq<Event>, states': seq<State>)
    requires IsRun(m, events, states) && Inserted(states[|events|], level, t)
    ensures IsRun(m, events', states') && states' != [] && states'[|states'| - 1] == t
  {
    hide Enabled, Apply, IsRun;
    LastState(m, events, states);
    var s := states[|events|];
    var more :| Leads(Apply(s, Arrive(level)), |s.threads|, more, t);
    OneMoreStep(m, events, states, Arrive(level));
    LastState(m, events + [Arrive(level)], states + [Apply(s, Arrive(level))]);
    states' := RunGoesOn(m, events + [Arrive(level)], states + [Apply(s, Arrive(level))], |s.threads|, more, t);
    events' := events + [Arrive(level)] + more;
  }

  lemma LastState(m: nat, events: seq<Event>, states: seq<State>)
    requires IsRun(m, events, states)
    ensures |states| == |events| + 1
  {
  }

  /** The sequential program is a run of the concurrent one: whatever links, entry point and maximum level a
      sequence of insertions leads to, a run of the step relation leads there too. */
  method AddPointsAsRun(alg: Hnsw.HierarchicalNSW, points: seq<(Vector, nat, int, nat)>)
    returns (added: nat, ghost events: seq<Event>, ghost states: seq<State>, ghost clock: nat)
    requires alg.Valid() && alg.count == 0
    modifies alg, alg.vectors, alg.labels, alg.levels, alg.links
    ensures alg.Valid() && added <= |points| && alg.count == added && (added < |points| ==> alg.count == alg.maxElements)
    ensures Hnsw.Recorded(alg.Vectors(), alg.Levels(), alg.labels[..alg.count], 0, points[..added])
    ensures IsRun(alg.m, events, states) && states[|events|] == StateOf(alg, clock)
  {
    assert Hnsw.Recorded(alg.Vectors(), alg.Levels(), alg.labels[..alg.count], 0, points[..0]);
    hide GoodGraph, Hnsw.NobodyAlone, Hnsw.HierarchicalNSW.LookupOk, Inserted, Quiet, Hnsw.Recorded;
    added, clock := 0, 0;
    events, states := [], [Start(alg.m)];
    assert StateOf(alg, 0) == Start(alg.m) by { NobodyYet(alg.m, alg.Levels(), alg.AllLinks()); }
    while added < |points| && alg.count < alg.maxElements
      invariant alg.Valid() && added <= |points| && alg.count == added
      invariant IsRun(alg.m, events, states) && states[|events|] == StateOf(alg, clock)
      invariant Hnsw.Recorded(alg.Vectors(), alg.Levels(), alg.labels[..alg.count], 0, points[..added])
    {
      hide IsRun;
      var p := points[added];
      ghost var vs, levels, names := alg.Vectors(), alg.Levels(), alg.labels[..alg.count];
      var status, cur;
      ghost var next;
      ghost var s := StateOf(alg, clock);
      status, cur, next := AddPointAsRun(alg, p.0, p.1, p.2, p.3, clock);
      events, states := InsertionExtends(alg.m, events, states, if p.2 > 0 then p.2 else p.3, StateOf(alg, next));
      clock := next;
      LastState(alg.m, events, states);
      Hnsw.RecordedNext(vs, levels, names, 0, points, added);
      added := added + 1;
    }
  }

  lemma NobodyYet(m: nat, levels: seq<nat>, links: Links)
    requires levels == [] && links == []
    ensures Quiet(m, levels, links, -1, -1, 0) == Start(m)
  {
    assert Quiet(m, levels, links, -1, -1, 0).threads == [];
  }
}
