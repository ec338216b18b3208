/** Concurrent addPoint as a step relation: every call owns the lock of its new node until it returns,
    takes the global lock around the read of the maximum level (and keeps it if its node is higher), and
    locks one further node at a time to read or rewrite its lists. Which node is looked at next is left open,
    and so are the distances: a call may select whatever the heuristic keeps of nodes it has seen, and answer
    a link in every way that some distance function and some vectors allow. */
module ConcurrentInsert {
  import opened Wrappers
  import opened Queues
  import opened FiniteSets
  import opened HnswGraph
  import opened NeighborHeuristic
  import Hnsw

  /** Where a call stands. copy is its copy of the maximum level, obj the node its searches start from,
      inside says that it holds the lock of the node it is looking at. */
  datatype Phase =
    | Arrived
    | AtGlobal
    | GotGlobal(copy: int)
    | AtEntry(copy: int)
    | FirstEntry
    | FirstLevel
    | Descending(copy: int, obj: nat, lvl: nat, inside: bool)
    | Searching(copy: int, obj: nat, lvl: nat, known: set<nat>)
    | Expanding(copy: int, obj: nat, lvl: nat, known: set<nat>, n: nat, inside: bool)
    | Chosen(copy: int, obj: nat, lvl: nat, sel: seq<nat>)
    | Linking(copy: int, obj: nat, lvl: nat, sel: seq<nat>, idx: nat, began: nat, inside: bool)
    | Publishing(copy: int)
    | Published(copy: int)
    | Leaving(copy: int)
    | Done

  /** The call that inserts node c is thread c. */
  datatype Thread = Thread(level: nat, phase: Phase)

  datatype State = State(
    m: nat,
    threads: seq<Thread>,
    lists: Links,
    lock: map<nat, nat>,
    global: Option<nat>,
    entry: int,
    maxlevel: int,
    clock: nat)

  function Start(m: nat): State {
    State(m, [], [], map[], None, -1, -1, 0)
  }

  // ---------------------------------------------------------------- steps

  /** One atomic action; the parameters are the choices left open. */
  datatype Event =
    | Arrive(level: nat)
    | LockOwn(c: nat)
    | LockGlobal(c: nat)
    | MaybeUnlockGlobal(c: nat)
    | ReadEntry(c: nat)
    | SetFirstEntry(c: nat)
    | SetFirstLevel(c: nat)
    | LockNode(c: nat)
    | DescendRead(c: nat, nearer: Option<nat>)
    | PickCandidate(c: nat, n: nat)
    | ReadNeighbors(c: nat)
    | Choose(c: nat, sel: seq<nat>)
    | WriteOwn(c: nat)
    | WriteLink(c: nat, list: LinkList)
    | EndLevel(c: nat)
    | SetEntry(c: nat)
    | SetMaxLevel(c: nat)
    | Leave(c: nat)

  /** The node whose lock a call asks for next. */
  function Wants(c: nat, p: Phase): Option<nat> {
    match p
    case Arrived => Some(c)
    case Descending(_, obj, _, inside) => if inside then None else Some(obj)
    case Expanding(_, _, _, _, n, inside) => if inside then None else Some(n)
    case Linking(_, _, _, sel, idx, _, inside) => if inside || idx >= |sel| then None else Some(sel[idx])
    case _ => None
  }

  /** The node locks a call holds. */
  function Held(c: nat, p: Phase): set<nat> {
    match p
    case Arrived => {}
    case Done => {}
    case Descending(_, obj, _, true) => {c, obj}
    case Expanding(_, _, _, _, n, true) => {c, n}
    case Linking(_, _, _, sel, idx, _, true) => if idx < |sel| then {c, sel[idx]} else {c}
    case _ => {c}
  }

  predicate HoldsGlobal(t: Thread) {
    match t.phase
    case GotGlobal(_) => true
    case AtEntry(copy) => t.level > copy
    case FirstEntry => true
    case FirstLevel => true
    case Descending(copy, _, _, _) => t.level > copy
    case Searching(copy, _, _, _) => t.level > copy
    case Expanding(copy, _, _, _, _, _) => t.level > copy
    case Chosen(copy, _, _, _) => t.level > copy
    case Linking(copy, _, _, _, _, _, _) => t.level > copy
    case Publishing(copy) => t.level > copy
    case Published(copy) => t.level > copy
    case Leaving(copy) => t.level > copy
    case _ => false
  }

  /** What follows when a level is finished, or when there was none to do. */
  function NextLevel(copy: int, obj: nat, lvl: int): Phase {
    if lvl >= 0 then Searching(copy, obj, lvl, {obj}) else Publishing(copy)
  }

  /** The neighbours a call may select after a search: the ids that the heuristic keeps of some of the nodes
      it has seen, for whatever distances. */
  ghost predicate Selects(known: set<nat>, m: nat, sel: seq<nat>) {
    exists top, kept ::
      && DistinctIds(top) && Ids(top) <= known && MayKeep(top, kept, m)
      && |sel| == |kept| && Distinct(sel) && FarthestFirst(sel, kept) && forall i | 0 <= i < |sel| :: sel[i] in Ids(kept)
  }

  ghost predicate MayKeep(top: Queue, kept: Queue, m: nat) {
    exists dist: (Vector, Vector) -> real, vs: seq<Vector>, order :: InRange(top, |vs|) && ChosenFrom(dist, vs, top, kept, order, m)
  }

  /** The list of node n may become list when c asks to be linked. */
  ghost predicate MayAnswer(c: nat, n: nat, capacity: nat, before: LinkList, list: LinkList) {
    exists dist: (Vector, Vector) -> real, vs: seq<Vector> :: Hnsw.BackLinked(dist, vs, c, n, capacity, before, list)
  }

  /** Call c is about to run into one of the runtime errors of addPoint, or to use a list that does not exist. */
  predicate Throws(s: State, c: nat)
    requires c < |s.threads|
  {
    var t := s.threads[c];
    match t.phase
    case Descending(_, obj, lvl, _) => !HasList(s, obj, lvl) || ListFails(s.lists[obj][lvl], |s.threads|)
    case Searching(copy, _, lvl, _) => lvl > copy
    case Expanding(_, _, lvl, _, n, _) => !HasList(s, n, lvl) || ListFails(s.lists[n][lvl], |s.threads|)
    case Chosen(_, _, lvl, sel) => |sel| > s.m || !HasList(s, c, lvl) || OwnFails(s, s.lists[c][lvl], lvl, sel)
    case Linking(_, _, lvl, sel, idx, _, _) =>
      idx < |sel| &&
      (|| !HasList(s, sel[idx], lvl)
       || s.lists[sel[idx]][lvl].size > Capacity(s.m, lvl) || sel[idx] == c || lvl > s.threads[sel[idx]].level)
    case _ => false
  }

  predicate HasList(s: State, n: nat, lvl: nat) {
    n < |s.threads| && n < |s.lists| && lvl < |s.lists[n]|
  }

  /** Reading the list leads to an id that no element has. */
  predicate ListFails(list: LinkList, n: nat) {
    list.size > |list.data| || exists j | 0 <= j < list.size :: list.data[j] >= n
  }

  /** The list of the new element is not blank, or one of its slots is taken, or a selected neighbour does not
      reach the level. */
  predicate OwnFails(s: State, list: LinkList, lvl: nat, sel: seq<nat>) {
    || list.size != 0 || |sel| > |list.data|
    || exists i | 0 <= i < |sel| :: (i < |list.data| && list.data[i] != 0) || sel[i] >= |s.threads| || lvl > s.threads[sel[i]].level
  }

  /** An action a call can take next; a call that throws takes none. */
  ghost predicate Enabled(s: State, e: Event) {
    if e.Arrive? then true
    else if e.c >= |s.threads| || Throws(s, e.c) then false
    else
      var p := s.threads[e.c].phase;
      match e
      case LockOwn(c) => p.Arrived? && c !in s.lock
      case LockGlobal(c) => p.AtGlobal? && s.global == None
      case MaybeUnlockGlobal(c) => p.GotGlobal?
      case ReadEntry(c) => p.AtEntry?
      case SetFirstEntry(c) => p.FirstEntry?
      case SetFirstLevel(c) => p.FirstLevel?
      case LockNode(c) => !p.Arrived? && Wants(c, p).Some? && Wants(c, p).value !in s.lock
      case DescendRead(c, nearer) =>
        p.Descending? && p.inside && (nearer.Some? ==> nearer.value in LinksOf(s, p.obj, p.lvl))
      case PickCandidate(c, n) => p.Searching? && n in p.known
      case ReadNeighbors(c) => p.Expanding? && p.inside
      case Choose(c, sel) => p.Searching? && Selects(p.known, s.m, sel)
      case WriteOwn(c) => p.Chosen?
      case WriteLink(c, list) =>
        p.Linking? && p.inside && p.idx < |p.sel|
        && MayAnswer(c, p.sel[p.idx], Capacity(s.m, p.lvl), s.lists[p.sel[p.idx]][p.lvl], list)
      case EndLevel(c) => p.Linking? && !p.inside && p.idx == |p.sel|
      case SetEntry(c) => p.Publishing?
      case SetMaxLevel(c) => p.Published?
      case Leave(c) => p.Leaving?
  }

  ghost function LinksOf(s: State, n: nat, lvl: nat): seq<nat> {
    if n < |s.lists| then ListAt(s.lists[n], lvl) else []
  }

  /** The selected ids written over the front of a list. */
  function Filled(list: LinkList, sel: seq<nat>): LinkList
    requires |sel| <= |list.data|
  {
    LinkList(|sel|, sel + list.data[|sel|..])
  }

  function At(s: State, c: nat, p: Phase): State
    requires c < |s.threads|
  {
    s.(threads := s.threads[c := s.threads[c].(phase := p)])
  }

  function Inside(p: Phase): Phase {
    match p
    case Descending(copy, obj, lvl, _) => Descending(copy, obj, lvl, true)
    case Expanding(copy, obj, lvl, known, n, _) => Expanding(copy, obj, lvl, known, n, true)
    case Linking(copy, obj, lvl, sel, idx, began, _) => Linking(copy, obj, lvl, sel, idx, began, true)
    case _ => p
  }

  ghost function Apply(s: State, e: Event): State
    requires Enabled(s, e)
  {
    if e.Arrive? then
      s.(threads := s.threads + [Thread(e.level, Arrived)],
         lists := s.lists + [BlankLists(s.m, e.level)])
    else
      var t := s.threads[e.c];
      var p := t.phase;
      match e
      case LockOwn(c) => At(s, c, AtGlobal).(lock := s.lock[c := c])
      case LockGlobal(c) => At(s, c, GotGlobal(s.maxlevel)).(global := Some(c))
      case MaybeUnlockGlobal(c) =>
        At(s, c, AtEntry(p.copy)).(global := if t.level <= p.copy then None else s.global)
      case ReadEntry(c) =>
        if s.entry < 0 then At(s, c, FirstEntry)
        else if t.level < p.copy then At(s, c, Descending(p.copy, s.entry, p.copy, false))
        else At(s, c, NextLevel(p.copy, s.entry, p.copy))
      case SetFirstEntry(c) => At(s, c, FirstLevel).(entry := 0)
      case SetFirstLevel(c) => At(s, c, Publishing(-1)).(maxlevel := t.level)
      case LockNode(c) => At(s, c, Inside(p)).(lock := s.lock[Wants(c, p).value := c])
      case DescendRead(c, nearer) =>
        var s' := s.(lock := s.lock - {p.obj});
        if nearer.Some? then At(s', c, Descending(p.copy, nearer.value, p.lvl, false))
        else if p.lvl > t.level + 1 then At(s', c, Descending(p.copy, p.obj, p.lvl - 1, false))
        else At(s', c, NextLevel(p.copy, p.obj, t.level))
      case PickCandidate(c, n) => At(s, c, Expanding(p.copy, p.obj, p.lvl, p.known, n, false))
      case ReadNeighbors(c) =>
        At(s.(lock := s.lock - {p.n}), c, Searching(p.copy, p.obj, p.lvl, p.known + ToSet(LinksOf(s, p.n, p.lvl))))
      case Choose(c, sel) => At(s, c, Chosen(p.copy, p.obj, p.lvl, sel))
      case WriteOwn(c) =>
        At(s, c, Linking(p.copy, p.obj, p.lvl, p.sel, 0, s.clock, false))
        .(clock := s.clock + 1, lists := s.lists[c := s.lists[c][p.lvl := Filled(s.lists[c][p.lvl], p.sel)]])
      case WriteLink(c, list) =>
        var n := p.sel[p.idx];
        At(s.(lock := s.lock - {n}), c, Linking(p.copy, p.obj, p.lvl, p.sel, p.idx + 1, p.began, false))
        .(lists := s.lists[n := s.lists[n][p.lvl := list]])
      case EndLevel(c) => At(s, c, NextLevel(p.copy, p.obj, p.lvl - 1))
      case SetEntry(c) => if t.level > p.copy then At(s, c, Published(p.copy)).(entry := c) else At(s, c, Leaving(p.copy))
      case SetMaxLevel(c) => At(s, c, Leaving(p.copy)).(maxlevel := t.level)
      case Leave(c) =>
        At(s, c, Done).(lock := s.lock - {c}, global := if t.level > p.copy then None else s.global)
  }

  // ---------------------------------------------------------------- the invariant

  /** The inserter of a node in this phase has begun to link it on level l: others may have seen it there. */
  predicate OpenOn(p: Phase, l: nat) {
    match p
    case Searching(_, _, lvl, _) => lvl < l
    case Expanding(_, _, lvl, _, _, _) => lvl < l
    case Chosen(_, _, lvl, _) => lvl < l
    case Linking(_, _, lvl, _, _, _, _) => lvl <= l
    case _ => Finished(p)
  }

  /** All linking is over. */
  predicate Finished(p: Phase) {
    p.Publishing? || p.Published? || p.Leaving? || p.Done?
  }

  /** Linking on level l was over, or had begun, before the given time. */
  predicate OpenBefore(p: Phase, l: nat, time: nat) {
    OpenOn(p, l) && !(p.Linking? && p.lvl == l && p.began >= time)
  }

  predicate Seen(s: State, v: nat, l: nat) {
    v < |s.threads| && l <= s.threads[v].level && OpenOn(s.threads[v].phase, l)
  }

  predicate SeenBefore(s: State, v: nat, l: nat, time: nat) {
    v < |s.threads| && l <= s.threads[v].level && OpenBefore(s.threads[v].phase, l, time)
  }

  predicate FinishedNode(s: State, v: nat, l: nat) {
    v < |s.threads| && l <= s.threads[v].level && Finished(s.threads[v].phase)
  }

  function LevelsOf(s: State): (levels: seq<nat>)
    ensures |levels| == |s.threads| && forall c | 0 <= c < |levels| :: levels[c] == s.threads[c].level
  {
    seq(|s.threads|, c requires 0 <= c < |s.threads| => s.threads[c].level)
  }

  /** A good list that only holds nodes opened on its level, and is blank until its own node is. */
  ghost predicate ListOk(s: State, u: nat, l: nat)
    requires |s.lists| == |s.threads| && u < |s.lists| && l < |s.lists[u]|
  {
    && GoodList(s.lists[u][l], Capacity(s.m, l), u, l, LevelsOf(s))
    && (!OpenOn(s.threads[u].phase, l) ==> s.lists[u][l] == LinkList(0, seq(Capacity(s.m, l), _ => 0)))
    && forall v | v in ListAt(s.lists[u], l) :: Seen(s, v, l)
  }

  ghost predicate ListsOk(s: State) {
    && |s.lists| == |s.threads|
    && forall u | 0 <= u < |s.lists| ::
         |s.lists[u]| == s.threads[u].level + 1 && forall l | 0 <= l < |s.lists[u]| :: ListOk(s, u, l)
  }

  /** The selected neighbours that have not been asked yet do not know the new element. */
  ghost predicate Unanswered(s: State, c: nat)
    requires c < |s.threads|
  {
    var p := s.threads[c].phase;
    p.Linking? ==> forall j | p.idx <= j < |p.sel| :: c !in LinksOf(s, p.sel[j], p.lvl)
  }

  /** Every lock belongs to the call that took it. */
  ghost predicate LocksOk(s: State) {
    && (forall v | v in s.lock :: s.lock[v] < |s.threads| && v in Held(s.lock[v], s.threads[s.lock[v]].phase))
    && (forall c, v | 0 <= c < |s.threads| && v in Held(c, s.threads[c].phase) :: v in s.lock && s.lock[v] == c)
  }

  ghost predicate GlobalOk(s: State) {
    && (s.global.Some? ==> s.global.value < |s.threads|)
    && forall c | 0 <= c < |s.threads| :: HoldsGlobal(s.threads[c]) <==> s.global == Some(c)
  }

  predicate Early(p: Phase) {
    p.Arrived? || p.AtGlobal?
  }

  /** The first insertion of all, until its node is the entry point. */
  predicate Booting(p: Phase) {
    p == GotGlobal(-1) || p == AtEntry(-1) || p.FirstEntry? || p.FirstLevel? || p == Publishing(-1)
  }

  ghost predicate EntryOk(s: State) {
    && s.maxlevel >= -1
    && (forall c | 0 <= c < |s.threads| && Booting(s.threads[c].phase) ::
          forall d | 0 <= d < |s.threads| && d != c :: Early(s.threads[d].phase))
    && (s.maxlevel == -1 ==> s.entry == -1 || exists c :: 0 <= c < |s.threads| && s.threads[c].phase.FirstLevel?)
    && (s.maxlevel >= 0 ==>
          || (exists c :: 0 <= c < |s.threads| && s.threads[c].phase == Publishing(-1))
          || (s.entry >= 0 && FinishedNode(s, s.entry, s.maxlevel)))
  }

  /** What a call knows in each phase. */
  ghost predicate ThreadOk(s: State, c: nat)
    requires c < |s.threads|
  {
    var t := s.threads[c];
    match t.phase
    case Arrived => true
    case AtGlobal => true
    case GotGlobal(copy) => copy == s.maxlevel
    case AtEntry(copy) => -1 <= copy <= s.maxlevel && (t.level > copy ==> copy == s.maxlevel)
    case FirstEntry => s.maxlevel == -1
    case FirstLevel => s.maxlevel == -1 && s.entry == 0
    case Descending(copy, obj, lvl, inside) =>
      0 <= copy <= s.maxlevel && t.level < lvl <= copy && obj != c && Seen(s, obj, lvl)
    case Searching(copy, obj, lvl, known) => BeamOk(s, c, copy, obj, lvl, known)
    case Expanding(copy, obj, lvl, known, n, inside) => BeamOk(s, c, copy, obj, lvl, known) && n in known
    case Chosen(copy, obj, lvl, sel) =>
      && LevelOk(s, c, copy, obj, lvl) && |sel| <= s.m && Distinct(sel)
      && forall i | 0 <= i < |sel| :: sel[i] != c && Seen(s, sel[i], lvl)
    case Linking(copy, obj, lvl, sel, idx, began, inside) =>
      && LevelOk(s, c, copy, obj, lvl)
      && began < s.clock && idx <= |sel| && Distinct(sel) && (inside ==> idx < |sel|)
      && forall i | 0 <= i < |sel| :: sel[i] != c && SeenBefore(s, sel[i], lvl, began)
    case Publishing(copy) => -1 <= copy <= s.maxlevel && (t.level > copy ==> s.maxlevel <= t.level) && s.maxlevel >= 0
    case Published(copy) => -1 <= copy <= s.maxlevel && t.level > copy && 0 <= s.maxlevel <= t.level && s.entry == c
    case Leaving(copy) => s.maxlevel >= 0
    case Done => s.maxlevel >= 0
  }

  /** The search of call c on a level: it started from a node whose inserter is finished, and has seen
      only nodes opened on the level, never its own. */
  ghost predicate BeamOk(s: State, c: nat, copy: int, obj: nat, lvl: nat, known: set<nat>)
    requires c < |s.threads|
  {
    LevelOk(s, c, copy, obj, lvl) && obj in known && forall v | v in known :: v != c && Seen(s, v, lvl)
  }

  /** Call c works on a level that its node and the start of its search have. */
  ghost predicate LevelOk(s: State, c: nat, copy: int, obj: nat, lvl: nat)
    requires c < |s.threads|
  {
    && 0 <= copy <= s.maxlevel && lvl <= s.threads[c].level && lvl <= copy
    && (s.threads[c].level > copy ==> copy == s.maxlevel)
    && obj != c && FinishedNode(s, obj, lvl)
  }

  ghost predicate Inv(s: State) {
    && ListsOk(s) && LocksOk(s) && GlobalOk(s) && EntryOk(s)
    && forall c | 0 <= c < |s.threads| :: ThreadOk(s, c) && Unanswered(s, c)
  }

  // ---------------------------------------------------------------- progress is never undone

  /** s' is s with thread c further on; visibility only grows. */
  ghost predicate Advances(s: State, s': State, c: nat) {
    && |s'.threads| == |s.threads| && c < |s.threads|
    && (forall d | 0 <= d < |s.threads| && d != c :: s'.threads[d] == s.threads[d])
    && s'.threads[c].level == s.threads[c].level
    && (forall l: nat :: OpenOn(s.threads[c].phase, l) ==> OpenOn(s'.threads[c].phase, l))
    && (forall l: nat, time: nat | time <= s.clock :: OpenBefore(s.threads[c].phase, l, time) ==> OpenBefore(s'.threads[c].phase, l, time))
    && (Finished(s.threads[c].phase) ==> Finished(s'.threads[c].phase))
    && s.clock <= s'.clock && s.maxlevel <= s'.maxlevel && s'.m == s.m
  }

  lemma StepAdvances(s: State, e: Event)
    requires Enabled(s, e) && !e.Arrive? && ThreadOk(s, e.c)
    ensures Advances(s, Apply(s, e), e.c)
  {
    hide BeamOk, LinksOf, Selects, MayAnswer, Throws;
    PhaseAdvances(s, e);
    hide OpenOn, OpenBefore, Finished;
  }

  lemma PhaseAdvances(s: State, e: Event)
    requires Enabled(s, e) && !e.Arrive? && ThreadOk(s, e.c)
    ensures var p, p' := s.threads[e.c].phase, Apply(s, e).threads[e.c].phase;
            && (forall l: nat :: OpenOn(p, l) ==> OpenOn(p', l))
            && (forall l: nat, time: nat | time <= s.clock :: OpenBefore(p, l, time) ==> OpenBefore(p', l, time))
            && (Finished(p) ==> Finished(p'))
  {
    hide BeamOk, LinksOf, Selects, MayAnswer, Throws;
  }

  lemma SeenStays(s: State, s': State, c: nat, v: nat, l: nat)
    requires Advances(s, s', c)
    ensures Seen(s, v, l) ==> Seen(s', v, l)
    ensures FinishedNode(s, v, l) ==> FinishedNode(s', v, l)
  {
  }

  lemma SeenBeforeStays(s: State, s': State, c: nat, v: nat, l: nat, time: nat)
    requires Advances(s, s', c) && time <= s.clock
    ensures SeenBefore(s, v, l, time) ==> SeenBefore(s', v, l, time)
  {
  }

  /** What the other calls know stays true; whoever holds the global lock also sees the entry data unchanged. */
  lemma OthersStay(s: State, s': State, c: nat, d: nat)
    requires Advances(s, s', c) && d < |s.threads| && d != c && ThreadOk(s, d)
    requires HoldsGlobal(s.threads[d]) ==> s'.maxlevel == s.maxlevel && s'.entry == s.entry
    ensures ThreadOk(s', d)
  {
    forall v: nat, l: nat
      ensures Seen(s, v, l) ==> Seen(s', v, l)
      ensures FinishedNode(s, v, l) ==> FinishedNode(s', v, l)
    {
      SeenStays(s, s', c, v, l);
    }
    if s.threads[d].phase.Linking? {
      var p := s.threads[d].phase;
      forall i | 0 <= i < |p.sel|
        ensures SeenBefore(s', p.sel[i], p.lvl, p.began)
      {
        SeenBeforeStays(s, s', c, p.sel[i], p.lvl, p.began);
      }
    }
  }

  // ---------------------------------------------------------------- locks

  /** Only thread c moves on. */
  ghost predicate OneMoves(s: State, s': State, c: nat) {
    c < |s.threads| == |s'.threads| && forall d | 0 <= d < |s.threads| && d != c :: s'.threads[d] == s.threads[d]
  }

  lemma LocksKept(s: State, s': State, c: nat)
    requires LocksOk(s) && OneMoves(s, s', c)
    requires Held(c, s'.threads[c].phase) == Held(c, s.threads[c].phase) && s'.lock == s.lock
    ensures LocksOk(s')
  {
    hide Held;
    forall d | 0 <= d < |s.threads|
      ensures Held(d, s'.threads[d].phase) == Held(d, s.threads[d].phase)
    {
    }
  }

  lemma LockTaken(s: State, s': State, c: nat, n: nat)
    requires LocksOk(s) && OneMoves(s, s', c) && n !in s.lock
    requires Held(c, s'.threads[c].phase) == Held(c, s.threads[c].phase) + {n} && s'.lock == s.lock[n := c]
    ensures LocksOk(s')
  {
    hide Held;
    forall d | 0 <= d < |s.threads| && d != c
      ensures Held(d, s'.threads[d].phase) == Held(d, s.threads[d].phase)
    {
    }
  }

  lemma LockDropped(s: State, s': State, c: nat, n: nat)
    requires LocksOk(s) && OneMoves(s, s', c) && n in Held(c, s.threads[c].phase)
    requires Held(c, s'.threads[c].phase) == Held(c, s.threads[c].phase) - {n} && s'.lock == s.lock - {n}
    ensures LocksOk(s')
  {
    hide Held;
    assert s.lock[n] == c;
    forall d, v | 0 <= d < |s.threads| && v in Held(d, s'.threads[d].phase)
      ensures v in s'.lock && s'.lock[v] == d
    {
      assert v in Held(d, s.threads[d].phase);
    }
    forall v | v in s'.lock
      ensures s'.lock[v] < |s'.threads| && v in Held(s'.lock[v], s'.threads[s'.lock[v]].phase)
    {
      assert v in s.lock && s.lock[v] == s'.lock[v];
    }
  }

  lemma HeldKept(s: State, e: Event)
    requires Enabled(s, e) && !e.Arrive? && ThreadOk(s, e.c)
    requires !(e.LockOwn? || e.LockNode? || e.DescendRead? || e.ReadNeighbors? || e.WriteLink? || e.Leave?)
    ensures Held(e.c, Apply(s, e).threads[e.c].phase) == Held(e.c, s.threads[e.c].phase) && Apply(s, e).lock == s.lock
  {
    hide BeamOk, LinksOf, Selects, MayAnswer, Throws;
  }

  lemma LocksReleased(s: State, e: Event)
    requires Enabled(s, e) && LocksOk(s) && (e.DescendRead? || e.ReadNeighbors? || e.WriteLink? || e.Leave?) && ThreadOk(s, e.c)
    ensures LocksOk(Apply(s, e))
  {
    hide LocksOk, LinksOf, Selects, MayAnswer, Throws;
    var p := s.threads[e.c].phase;
    var n := match e
      case DescendRead(_, _) => p.obj
      case ReadNeighbors(_) => p.n
      case WriteLink(_, _) => p.sel[p.idx]
      case _ => e.c;
    LockDropped(s, Apply(s, e), e.c, n);
  }

  lemma LocksStep(s: State, e: Event)
    requires Enabled(s, e) && !e.Arrive? && LocksOk(s) && ThreadOk(s, e.c)
    ensures LocksOk(Apply(s, e))
  {
    hide LocksOk, LinksOf, Selects, MayAnswer, Throws;
    var s', c := Apply(s, e), e.c;
    var p := s.threads[c].phase;
    match e {
      case LockOwn(_) =>
        LockTaken(s, s', c, c);
      case LockNode(_) =>
        LockTaken(s, s', c, Wants(c, p).value);
      case DescendRead(_, _) => LocksReleased(s, e);
      case ReadNeighbors(_) => LocksReleased(s, e);
      case WriteLink(_, _) => LocksReleased(s, e);
      case Leave(_) => LocksReleased(s, e);
      case _ =>
        HeldKept(s, e);
        LocksKept(s, s', c);
    }
  }

  lemma LocksArrive(s: State, level: nat)
    requires LocksOk(s)
    ensures LocksOk(Apply(s, Arrive(level)))
  {
    var s' := Apply(s, Arrive(level));
    assert Held(|s.threads|, Arrived) == {};
    assert s'.lock == s.lock && s'.threads == s.threads + [Thread(level, Arrived)];
    hide Apply, Held;
    forall d, v | 0 <= d < |s'.threads| && v in Held(d, s'.threads[d].phase)
      ensures v in s'.lock && s'.lock[v] == d
    {
      if d < |s.threads| { assert v in Held(d, s.threads[d].phase); }
    }
  }

  lemma GlobalFollows(s: State, s': State, c: nat)
    requires GlobalOk(s) && OneMoves(s, s', c)
    requires || (s'.global == s.global && (HoldsGlobal(s'.threads[c]) <==> HoldsGlobal(s.threads[c])))
             || (s.global == None && s'.global == Some(c) && HoldsGlobal(s'.threads[c]))
             || (HoldsGlobal(s.threads[c]) && s'.global == None && !HoldsGlobal(s'.threads[c]))
    ensures GlobalOk(s')
  {
    assert HoldsGlobal(s.threads[c]) <==> s.global == Some(c);
    forall d | 0 <= d < |s'.threads|
      ensures HoldsGlobal(s'.threads[d]) <==> s'.global == Some(d)
    {
      assert HoldsGlobal(s.threads[d]) <==> s.global == Some(d);
    }
  }

  lemma GlobalKept(s: State, e: Event)
    requires Enabled(s, e) && !e.Arrive? && ThreadOk(s, e.c)
    requires !(e.LockGlobal? || e.MaybeUnlockGlobal? || e.Leave? || e.ReadEntry?)
    ensures Apply(s, e).global == s.global && (HoldsGlobal(Apply(s, e).threads[e.c]) <==> HoldsGlobal(s.threads[e.c]))
  {
    hide LinksOf, Selects, MayAnswer, Throws, BeamOk;
  }

  /** A step keeps the global lock where it is, takes it when it is free, or releases its own. */
  lemma GlobalChange(s: State, e: Event)
    requires Enabled(s, e) && !e.Arrive? && ThreadOk(s, e.c) && EntryOk(s)
    requires HoldsGlobal(s.threads[e.c]) ==> s.global == Some(e.c)
    ensures var s', c := Apply(s, e), e.c;
            || (s'.global == s.global && (HoldsGlobal(s'.threads[c]) <==> HoldsGlobal(s.threads[c])))
            || (s.global == None && s'.global == Some(c) && HoldsGlobal(s'.threads[c]))
            || (HoldsGlobal(s.threads[c]) && s'.global == None && !HoldsGlobal(s'.threads[c]))
  {
    if s.threads[e.c].phase.AtEntry? { BootFacts(s, e.c); }
    hide LinksOf, Selects, MayAnswer, Throws, BeamOk, EntryOk;
    if !(e.LockGlobal? || e.MaybeUnlockGlobal? || e.Leave? || e.ReadEntry?) { GlobalKept(s, e); }
  }

  lemma GlobalStep(s: State, e: Event)
    requires Enabled(s, e) && !e.Arrive? && GlobalOk(s) && ThreadOk(s, e.c) && EntryOk(s)
    ensures GlobalOk(Apply(s, e))
  {
    var s', c := Apply(s, e), e.c;
    assert HoldsGlobal(s.threads[c]) ==> s.global == Some(c);
    hide LinksOf, Selects, MayAnswer, Throws, BeamOk, GlobalOk;
    GlobalChange(s, e);
    hide EntryOk, Apply, Enabled, ThreadOk, HoldsGlobal;
    GlobalFollows(s, s', c);
  }

  /** The first insertion finds no entry point, every later one does. */
  lemma BootFacts(s: State, c: nat)
    requires EntryOk(s) && c < |s.threads| && ThreadOk(s, c) && s.threads[c].phase.AtEntry?
    ensures s.threads[c].phase.copy == -1 ==> s.entry == -1 && s.maxlevel == -1
    ensures s.threads[c].phase.copy >= 0 ==> s.entry >= 0 && FinishedNode(s, s.entry, s.maxlevel)
  {
  }

  // ---------------------------------------------------------------- lists

  lemma LevelsStay(s: State, s': State)
    requires |s'.threads| == |s.threads| && forall d | 0 <= d < |s.threads| :: s'.threads[d].level == s.threads[d].level
    ensures LevelsOf(s') == LevelsOf(s)
  {
  }

  /** A list that a step does not touch; it is still blank if its node is still not open. */
  lemma ListStays(s: State, s': State, c: nat, u: nat, l: nat)
    requires |s.lists| == |s.threads| == |s'.lists| && Advances(s, s', c) && LevelsOf(s') == LevelsOf(s)
    requires u < |s.lists| && l < |s.lists[u]| && |s'.lists[u]| == |s.lists[u]| && s'.lists[u][l] == s.lists[u][l]
    requires ListOk(s, u, l)
    ensures ListOk(s', u, l)
  {
    forall v | v in ListAt(s'.lists[u], l) ensures Seen(s', v, l) { SeenStays(s, s', c, v, l); }
  }

  lemma ListsSame(s: State, s': State, c: nat)
    requires ListsOk(s) && Advances(s, s', c) && s'.lists == s.lists
    ensures ListsOk(s')
  {
    LevelsStay(s, s');
    forall u, l | 0 <= u < |s'.lists| && 0 <= l < |s'.lists[u]|
      ensures ListOk(s', u, l)
    {
      ListStays(s, s', c, u, l);
    }
  }

  /** One list is rewritten. */
  lemma ListsWritten(s: State, s': State, c: nat, n: nat, l: nat, list: LinkList)
    requires ListsOk(s) && Advances(s, s', c) && n < |s.lists| && l < |s.lists[n]|
    requires s'.lists == s.lists[n := s.lists[n][l := list]]
    requires ListOk(s', n, l)
    ensures ListsOk(s')
  {
    LevelsStay(s, s');
    forall u, k | 0 <= u < |s'.lists| && 0 <= k < |s'.lists[u]|
      ensures ListOk(s', u, k)
    {
      if !(u == n && k == l) { ListStays(s, s', c, u, k); }
    }
  }

  lemma ListsStep(s: State, e: Event)
    requires Enabled(s, e) && !e.Arrive? && ListsOk(s) && ThreadOk(s, e.c) && Unanswered(s, e.c) && Advances(s, Apply(s, e), e.c)
    ensures ListsOk(Apply(s, e))
  {
    hide ListsOk, Advances, ListOk, Selects, MayAnswer, Throws, LinksOf, GoodList;
    var s', c := Apply(s, e), e.c;
    match e {
      case WriteOwn(_) => OwnWritten(s, e);
      case WriteLink(_, _) => LinkWritten(s, e);
      case _ => ListsSame(s, s', c);
    }
  }

  /** The selected ids make a good list. */
  lemma SelectedIsGood(blank: LinkList, m: nat, c: nat, l: nat, sel: seq<nat>, levels: seq<nat>)
    requires blank == LinkList(0, seq(Capacity(m, l), _ => 0)) && |sel| <= m && Distinct(sel)
    requires forall i | 0 <= i < |sel| :: sel[i] < |levels| && sel[i] != c && l <= levels[sel[i]]
    ensures |sel| <= |blank.data| && GoodList(Filled(blank, sel), Capacity(m, l), c, l, levels)
    ensures Filled(blank, sel).data[..|sel|] == sel
  {
    assert Filled(blank, sel).data[..|sel|] == sel;
  }

  lemma OwnWritten(s: State, e: Event)
    requires Enabled(s, e) && e.WriteOwn? && ListsOk(s) && ThreadOk(s, e.c) && Advances(s, Apply(s, e), e.c)
    ensures ListsOk(Apply(s, e))
  {
    var s', c := Apply(s, e), e.c;
    var p := s.threads[c].phase;
    var list := Filled(s.lists[c][p.lvl], p.sel);
    assert ListOk(s, c, p.lvl);
    LevelsStay(s, s');
    SelectedIsGood(s.lists[c][p.lvl], s.m, c, p.lvl, p.sel, LevelsOf(s));
    forall v | v in ListAt(s'.lists[c], p.lvl) ensures Seen(s', v, p.lvl) { SeenStays(s, s', c, v, p.lvl); }
    hide ListsOk, Advances, LevelOk, GoodList;
    ListsWritten(s, s', c, c, p.lvl, list);
  }

  lemma LinkWritten(s: State, e: Event)
    requires Enabled(s, e) && e.WriteLink? && ListsOk(s) && ThreadOk(s, e.c) && Unanswered(s, e.c) && Advances(s, Apply(s, e), e.c)
    ensures ListsOk(Apply(s, e))
  {
    var s', c := Apply(s, e), e.c;
    var p := s.threads[c].phase;
    var n := p.sel[p.idx];
    var before := s.lists[n][p.lvl];
    assert ListOk(s, n, p.lvl);
    LevelsStay(s, s');
    SeenBeforeStays(s, s', c, n, p.lvl, p.began);
    var dist: (Vector, Vector) -> real, vs: seq<Vector> :| Hnsw.BackLinked(dist, vs, c, n, Capacity(s.m, p.lvl), before, e.list);
    assert c !in LinksOf(s, n, p.lvl);
    Hnsw.AnswerIsGood(dist, vs, c, n, Capacity(s.m, p.lvl), before, e.list, p.lvl, LevelsOf(s));
    forall v | v in ListAt(s'.lists[n], p.lvl) ensures Seen(s', v, p.lvl) { SeenStays(s, s', c, v, p.lvl); }
    hide ListsOk, Advances, LevelOk, GoodList;
    ListsWritten(s, s', c, n, p.lvl, e.list);
  }

  /** A step adds at most its own node to the lists of another one. */
  lemma LinksGrow(s: State, e: Event, n: nat, l: nat, v: nat)
    requires Enabled(s, e) && !e.Arrive? && ListsOk(s) && ThreadOk(s, e.c) && Unanswered(s, e.c)
    requires n != e.c && v in LinksOf(Apply(s, e), n, l) && v !in LinksOf(s, n, l)
    ensures v == e.c && e.WriteLink? && l == s.threads[e.c].phase.lvl && n == s.threads[e.c].phase.sel[s.threads[e.c].phase.idx]
  {
    if e.WriteLink? {
      var p := s.threads[e.c].phase;
      if n == p.sel[p.idx] && l == p.lvl {
        var before := s.lists[n][l];
        assert ListOk(s, n, l);
        var dist: (Vector, Vector) -> real, vs: seq<Vector> :| Hnsw.BackLinked(dist, vs, e.c, n, Capacity(s.m, l), before, e.list);
        Hnsw.AnswerIsGood(dist, vs, e.c, n, Capacity(s.m, l), before, e.list, l, LevelsOf(s));
      }
    }
  }

  /** A node that has not begun to link on a level is in no list there. */
  lemma NotListedYet(s: State, c: nat, n: nat, l: nat)
    requires ListsOk(s) && c < |s.threads| && !OpenOn(s.threads[c].phase, l)
    ensures c !in LinksOf(s, n, l)
  {
    if n < |s.lists| && l < |s.lists[n]| {
      assert ListOk(s, n, l);
    }
  }

  // ---------------------------------------------------------------- the entry point

  lemma BootingHolds(s: State, d: nat)
    requires GlobalOk(s) && d < |s.threads| && Booting(s.threads[d].phase)
    ensures s.global == Some(d)
  {
  }

  lemma NobodyAhead(s: State, d: nat)
    requires GlobalOk(s) && s.global == None && s.maxlevel == -1 && d < |s.threads| && ThreadOk(s, d)
    ensures Early(s.threads[d].phase)
  {
    assert !HoldsGlobal(s.threads[d]);
  }

  /** Boot phases are entered by taking the global lock while there is no maximum level yet. */
  lemma BootingBegins(s: State, e: Event)
    requires Enabled(s, e) && !e.Arrive? && ThreadOk(s, e.c) && EntryOk(s)
    ensures Booting(Apply(s, e).threads[e.c].phase) && !Booting(s.threads[e.c].phase) ==>
              e.LockGlobal? && s.global == None && s.maxlevel == -1
  {
    if s.threads[e.c].phase.AtEntry? { BootFacts(s, e.c); }
    hide LinksOf, Selects, MayAnswer, Throws, BeamOk, EntryOk;
    if !Booting(s.threads[e.c].phase) && !e.LockGlobal? && !e.MaybeUnlockGlobal? && !e.ReadEntry? { NotBooting(s, e); }
  }

  lemma NotBooting(s: State, e: Event)
    requires Enabled(s, e) && !e.Arrive? && ThreadOk(s, e.c) && !Booting(s.threads[e.c].phase)
    requires !e.LockGlobal? && !e.MaybeUnlockGlobal? && !e.ReadEntry?
    ensures !Booting(Apply(s, e).threads[e.c].phase)
  {
    hide LinksOf, Selects, MayAnswer, Throws, BeamOk;
    if s.threads[e.c].phase.Searching? || s.threads[e.c].phase.Expanding? { assert s.threads[e.c].phase.copy >= 0 by { BeamHasCopy(s, e.c); } }
  }

  /** A copy of -1 never gets as far as a search. */
  lemma BeamHasCopy(s: State, c: nat)
    requires c < |s.threads| && ThreadOk(s, c) && (s.threads[c].phase.Searching? || s.threads[c].phase.Expanding?)
    ensures s.threads[c].phase.copy >= 0
  {
  }

  /** A call that has not got the global lock gets past it only when nobody holds it. */
  lemma EarlyStays(s: State, e: Event)
    requires Enabled(s, e) && !e.Arrive? && s.global.Some? && Early(s.threads[e.c].phase)
    ensures Early(Apply(s, e).threads[e.c].phase)
  {
  }

  lemma BootingAlone(s: State, e: Event)
    requires Enabled(s, e) && !e.Arrive? && Inv(s)
    ensures var s' := Apply(s, e);
            forall d, x | 0 <= d < |s'.threads| && Booting(s'.threads[d].phase) && 0 <= x < |s'.threads| && x != d :: Early(s'.threads[x].phase)
  {
    hide ListsOk, LocksOk, LinksOf, Selects, MayAnswer, Throws, BeamOk, HoldsGlobal;
    var s', c := Apply(s, e), e.c;
    assert ThreadOk(s, c);
    BootingBegins(s, e);
    forall d, x | 0 <= d < |s'.threads| && Booting(s'.threads[d].phase) && 0 <= x < |s'.threads| && x != d
      ensures Early(s'.threads[x].phase)
    {
      if Booting(s.threads[d].phase) {
        BootingHolds(s, d);
        assert Early(s.threads[x].phase);
        if x == c { EarlyStays(s, e); }
      } else {
        NobodyAhead(s, x);
      }
    }
  }

  ghost predicate BootingAlways(s: State) {
    forall d, x | 0 <= d < |s.threads| && Booting(s.threads[d].phase) && 0 <= x < |s.threads| && x != d :: Early(s.threads[x].phase)
  }

  /** Steps that leave the entry data alone, of calls that are not in the middle of setting it. */
  lemma EntryKept(s: State, s': State, c: nat)
    requires EntryOk(s) && Advances(s, s', c) && s'.entry == s.entry && s'.maxlevel == s.maxlevel
    requires s.threads[c].phase.FirstLevel? ==> s'.threads[c].phase.FirstLevel?
    requires s.threads[c].phase == Publishing(-1) ==> s'.threads[c].phase == Publishing(-1)
    requires BootingAlways(s')
    ensures EntryOk(s')
  {
    if s.entry >= 0 && s.maxlevel >= 0 { SeenStays(s, s', c, s.entry, s.maxlevel); }
    if d :| 0 <= d < |s.threads| && s.threads[d].phase.FirstLevel? {
      assert s'.threads[d].phase.FirstLevel?;
    }
    if d :| 0 <= d < |s.threads| && s.threads[d].phase == Publishing(-1) {
      assert s'.threads[d].phase == Publishing(-1);
    }
  }

  lemma EntrySet(s: State, e: Event)
    requires Enabled(s, e) && Inv(s) && !e.Arrive? && BootingAlways(Apply(s, e))
    requires e.SetFirstEntry? || e.SetFirstLevel? || e.SetEntry? || e.SetMaxLevel?
    ensures EntryOk(Apply(s, e))
  {
    var s', c := Apply(s, e), e.c;
    assert ThreadOk(s, c);
    hide LocksOk, ListsOk, LinksOf, Selects, MayAnswer, Throws, BeamOk, GlobalOk;
    if e.SetEntry? && s.threads[c].level <= s.threads[c].phase.copy {
      StepAdvances(s, e);
      EntryKept(s, s', c);
    } else if e.SetFirstEntry? {
      assert s'.threads[c].phase.FirstLevel?;
    } else if e.SetFirstLevel? {
      assert s'.threads[c].phase == Publishing(-1);
    } else {
      assert FinishedNode(s', c, s'.maxlevel);
    }
  }

  lemma EntryStep(s: State, e: Event)
    requires Enabled(s, e) && !e.Arrive? && Inv(s) && Advances(s, Apply(s, e), e.c)
    ensures EntryOk(Apply(s, e))
  {
    BootingAlone(s, e);
    hide LocksOk, ListsOk, LinksOf, Selects, MayAnswer, Throws, BeamOk, GlobalOk, Advances;
    if e.SetFirstEntry? || e.SetFirstLevel? || e.SetEntry? || e.SetMaxLevel? {
      EntrySet(s, e);
    } else {
      EntryKept(s, Apply(s, e), e.c);
    }
  }

  // ---------------------------------------------------------------- what the moving call knows

  /** A node whose lock another call got hold of, and which has been seen, has a finished inserter. */
  lemma LockedIsDone(s: State, c: nat, n: nat, l: nat)
    requires LocksOk(s) && c < |s.threads| && n in Held(c, s.threads[c].phase) && n != c && Seen(s, n, l)
    ensures s.threads[n].phase.Done?
  {
    assert s.lock[n] == c;
  }

  lemma KnowsAtEntry(s: State, e: Event)
    requires Enabled(s, e) && Inv(s) && !e.Arrive?
    requires e.LockOwn? || e.LockGlobal? || e.MaybeUnlockGlobal? || e.ReadEntry? || e.SetFirstEntry? || e.SetFirstLevel?
    ensures ThreadOk(Apply(s, e), e.c)
  {
    var s', c := Apply(s, e), e.c;
    assert ThreadOk(s, c);
    if e.ReadEntry? {
      BootFacts(s, c);
      hide LocksOk, ListsOk, GlobalOk, EntryOk;
    }
  }

  lemma KnowsDescending(s: State, e: Event)
    requires Enabled(s, e) && Inv(s) && e.DescendRead?
    ensures ThreadOk(Apply(s, e), e.c)
  {
    var s', c := Apply(s, e), e.c;
    var p := s.threads[c].phase;
    assert ThreadOk(s, c);
    LockedIsDone(s, c, p.obj, p.lvl);
    if e.nearer.Some? { ListedIsSeen(s, p.obj, p.lvl, e.nearer.value); }
    hide LocksOk, ListsOk, GlobalOk, EntryOk;
  }

  lemma KnowsSearching(s: State, e: Event)
    requires Enabled(s, e) && Inv(s) && !e.Arrive? && Advances(s, Apply(s, e), e.c)
    requires e.PickCandidate? || e.ReadNeighbors? || (e.LockNode? && s.threads[e.c].phase.Expanding?)
    ensures ThreadOk(Apply(s, e), e.c)
  {
    var s', c := Apply(s, e), e.c;
    var p := s.threads[c].phase;
    assert ThreadOk(s, c);
    hide LocksOk, GlobalOk, EntryOk, Throws, Selects, MayAnswer;
    var known := s'.threads[c].phase.known;
    forall v | v in known
      ensures v != c && Seen(s', v, p.lvl)
    {
      if v !in p.known { ListedIsSeen(s, p.n, p.lvl, v); }
      SeenStays(s, s', c, v, p.lvl);
    }
    SeenStays(s, s', c, p.obj, p.lvl);
    hide LocksOk, ListsOk, GlobalOk, EntryOk, Advances;
  }

  lemma ListedIsSeen(s: State, n: nat, l: nat, v: nat)
    requires ListsOk(s) && v in LinksOf(s, n, l)
    ensures Seen(s, v, l)
  {
    assert ListOk(s, n, l);
  }

  /** Whatever the heuristic keeps are at most m different nodes that have been seen. */
  lemma SelectedFew(known: set<nat>, m: nat, sel: seq<nat>)
    requires Selects(known, m, sel)
    ensures |sel| <= m && Distinct(sel) && forall i | 0 <= i < |sel| :: sel[i] in known
  {
    var top, kept :|
      && DistinctIds(top) && Ids(top) <= known && MayKeep(top, kept, m)
      && |sel| == |kept| && Distinct(sel) && forall i | 0 <= i < |sel| :: sel[i] in Ids(kept);
    var dist: (Vector, Vector) -> real, vs: seq<Vector>, order :| InRange(top, |vs|) && ChosenFrom(dist, vs, top, kept, order, m);
    ChosenAtMost(dist, vs, top, kept, order, m);
    hide Pruned, Distinct;
    assert Ids(kept) <= Ids(top);
  }

  lemma KnowsSelected(s: State, e: Event)
    requires Enabled(s, e) && Inv(s) && e.Choose? && Advances(s, Apply(s, e), e.c)
    ensures ThreadOk(Apply(s, e), e.c)
  {
    var s', c := Apply(s, e), e.c;
    var p := s.threads[c].phase;
    assert ThreadOk(s, c);
    SelectedFew(p.known, s.m, e.sel);
    forall i | 0 <= i < |e.sel|
      ensures e.sel[i] != c && Seen(s', e.sel[i], p.lvl)
    {
      SeenStays(s, s', c, e.sel[i], p.lvl);
    }
    SeenStays(s, s', c, p.obj, p.lvl);
    hide LocksOk, ListsOk, GlobalOk, EntryOk, Advances, Selects;
  }

  lemma KnowsOwn(s: State, e: Event)
    requires Enabled(s, e) && Inv(s) && e.WriteOwn? && Advances(s, Apply(s, e), e.c)
    ensures ThreadOk(Apply(s, e), e.c)
  {
    var s', c := Apply(s, e), e.c;
    var p := s.threads[c].phase;
    assert ThreadOk(s, c);
    forall i | 0 <= i < |p.sel|
      ensures p.sel[i] != c && SeenBefore(s', p.sel[i], p.lvl, s.clock)
    {
      var v := p.sel[i];
      assert Seen(s, v, p.lvl) && ThreadOk(s, v);
    }
    SeenStays(s, s', c, p.obj, p.lvl);
    hide LocksOk, ListsOk, GlobalOk, EntryOk, Advances;
  }

  lemma KnowsLocked(s: State, e: Event)
    requires Enabled(s, e) && Inv(s) && !e.Arrive? && Advances(s, Apply(s, e), e.c)
    requires e.LockNode? && !s.threads[e.c].phase.Expanding?
    ensures ThreadOk(Apply(s, e), e.c)
  {
    var s', c := Apply(s, e), e.c;
    var p := s.threads[c].phase;
    assert ThreadOk(s, c);
    SeenStays(s, s', c, p.obj, p.lvl);
    if p.Linking? {
      forall i | 0 <= i < |p.sel|
        ensures SeenBefore(s', p.sel[i], p.lvl, p.began)
      {
        SeenBeforeStays(s, s', c, p.sel[i], p.lvl, p.began);
      }
    }
    hide LocksOk, ListsOk, GlobalOk, EntryOk, Advances, SeenBefore;
  }

  lemma KnowsLinked(s: State, e: Event)
    requires Enabled(s, e) && !e.Arrive? && ThreadOk(s, e.c) && Advances(s, Apply(s, e), e.c)
    requires e.WriteLink? || e.EndLevel?
    ensures ThreadOk(Apply(s, e), e.c)
  {
    hide Advances, SeenBefore, Seen, LinksOf, Selects, MayAnswer, Throws;
    var s', c := Apply(s, e), e.c;
    var p := s.threads[c].phase;
    SeenStays(s, s', c, p.obj, p.lvl);
    if e.WriteLink? {
      forall i | 0 <= i < |p.sel|
        ensures SeenBefore(s', p.sel[i], p.lvl, p.began)
      {
        SeenBeforeStays(s, s', c, p.sel[i], p.lvl, p.began);
      }
    } else {
      hide SeenBefore, Advances;
      if p.lvl > 0 { StartOfLevel(s', c, p.copy, p.obj, p.lvl); }
    }
  }

  /** A search that starts on the level below knows its starting node, and that it is finished there too. */
  lemma StartOfLevel(s: State, c: nat, copy: int, obj: nat, lvl: nat)
    requires c < |s.threads| && 0 < lvl <= s.threads[c].level && 0 <= copy <= s.maxlevel && lvl <= copy
    requires s.threads[c].level > copy ==> copy == s.maxlevel
    requires obj != c && FinishedNode(s, obj, lvl)
    ensures BeamOk(s, c, copy, obj, lvl - 1, {obj})
  {
  }

  lemma KnowsPublishing(s: State, e: Event)
    requires Enabled(s, e) && Inv(s) && (e.SetEntry? || e.SetMaxLevel? || e.Leave?)
    ensures ThreadOk(Apply(s, e), e.c)
  {
    assert ThreadOk(s, e.c);
    hide LocksOk, ListsOk, GlobalOk, EntryOk;
  }

  lemma ThreadStep(s: State, e: Event)
    requires Enabled(s, e) && !e.Arrive? && Inv(s) && Advances(s, Apply(s, e), e.c)
    ensures ThreadOk(Apply(s, e), e.c)
  {
    assert ThreadOk(s, e.c);
    hide Inv, ThreadOk, Advances, LinksOf, Selects, MayAnswer, Throws;
    match e
    case DescendRead(_, _) => KnowsDescending(s, e);
    case PickCandidate(_, _) => KnowsSearching(s, e);
    case ReadNeighbors(_) => KnowsSearching(s, e);
    case Choose(_, _) => KnowsSelected(s, e);
    case WriteOwn(_) => KnowsOwn(s, e);
    case LockNode(_) => if s.threads[e.c].phase.Expanding? { KnowsSearching(s, e); } else { KnowsLocked(s, e); }
    case WriteLink(_, _) => KnowsLinked(s, e);
    case EndLevel(_) => KnowsLinked(s, e);
    case SetEntry(_) => KnowsPublishing(s, e);
    case SetMaxLevel(_) => KnowsPublishing(s, e);
    case Leave(_) => KnowsPublishing(s, e);
    case _ => KnowsAtEntry(s, e);
  }

  // ---------------------------------------------------------------- the invariant holds over every run

  /** Only a call that holds the global lock writes the entry point or the maximum level. */
  lemma EntryGuarded(s: State, e: Event)
    requires Enabled(s, e) && !e.Arrive? && ThreadOk(s, e.c)
    ensures Apply(s, e).entry != s.entry || Apply(s, e).maxlevel != s.maxlevel ==> HoldsGlobal(s.threads[e.c])
  {
    hide BeamOk, LinksOf, Selects, MayAnswer, Throws;
  }

  lemma OthersStep(s: State, e: Event, d: nat)
    requires Enabled(s, e) && !e.Arrive? && Inv(s) && Advances(s, Apply(s, e), e.c)
    requires d < |s.threads| && d != e.c
    ensures ThreadOk(Apply(s, e), d)
  {
    assert ThreadOk(s, e.c) && ThreadOk(s, d);
    EntryGuarded(s, e);
    assert !(HoldsGlobal(s.threads[d]) && HoldsGlobal(s.threads[e.c]));
    hide Inv, ThreadOk, Advances, Apply, Enabled, HoldsGlobal;
    OthersStay(s, Apply(s, e), e.c, d);
  }

  /** The neighbours still to be asked do not get to know the new element in another way. */
  lemma UnansweredStep(s: State, e: Event, d: nat)
    requires Enabled(s, e) && !e.Arrive? && Inv(s) && d < |s.threads|
    ensures Unanswered(Apply(s, e), d)
  {
    assert ThreadOk(s, d) && Unanswered(s, d) && ThreadOk(s, e.c) && Unanswered(s, e.c);
    hide LocksOk, GlobalOk, EntryOk, ListsOk, Enabled, Apply, ThreadOk, Unanswered;
    if d == e.c { OwnUnanswered(s, e); } else { OtherUnanswered(s, e, d); }
  }

  lemma OwnUnanswered(s: State, e: Event)
    requires Enabled(s, e) && !e.Arrive? && ListsOk(s) && ThreadOk(s, e.c) && Unanswered(s, e.c)
    ensures Unanswered(Apply(s, e), e.c)
  {
    hide ListsOk, LinksOf, Throws, Selects, MayAnswer, LevelOk;
    var s', c := Apply(s, e), e.c;
    var p, p' := s.threads[c].phase, s'.threads[c].phase;
    if p'.Linking? {
      forall j | p'.idx <= j < |p'.sel|
        ensures c !in LinksOf(s', p'.sel[j], p'.lvl)
      {
        if e.WriteOwn? { NotListedYet(s, c, p'.sel[j], p'.lvl); }
        if c in LinksOf(s', p'.sel[j], p'.lvl) {
          LinksGrow(s, e, p'.sel[j], p'.lvl, c);
        }
      }
    }
  }

  lemma OtherUnanswered(s: State, e: Event, d: nat)
    requires Enabled(s, e) && !e.Arrive? && ListsOk(s) && ThreadOk(s, e.c) && Unanswered(s, e.c)
    requires d < |s.threads| && d != e.c && ThreadOk(s, d) && Unanswered(s, d)
    ensures Unanswered(Apply(s, e), d)
  {
    hide ListsOk, LinksOf, Throws, Selects, MayAnswer, LevelOk;
    var s', c := Apply(s, e), e.c;
    var p := s.threads[d].phase;
    assert s'.threads[d].phase == p;
    if p.Linking? {
      forall j | p.idx <= j < |p.sel|
        ensures d !in LinksOf(s', p.sel[j], p.lvl)
      {
        assert SeenBefore(s, p.sel[j], p.lvl, p.began);
        if p.sel[j] == c {
          OwnListStays(s, e, p.lvl);
        } else if d in LinksOf(s', p.sel[j], p.lvl) {
          LinksGrow(s, e, p.sel[j], p.lvl, d);
        }
      }
    }
  }

  /** A call leaves its own list alone on the levels where others may have seen it. */
  lemma OwnListStays(s: State, e: Event, l: nat)
    requires Enabled(s, e) && !e.Arrive? && ThreadOk(s, e.c) && OpenOn(s.threads[e.c].phase, l)
    ensures LinksOf(Apply(s, e), e.c, l) == LinksOf(s, e.c, l)
  {
  }

  lemma InvStep(s: State, e: Event)
    requires Inv(s) && Enabled(s, e) && !e.Arrive?
    ensures Inv(Apply(s, e))
  {
    var s' := Apply(s, e);
    assert ThreadOk(s, e.c) && Unanswered(s, e.c);
    StepAdvances(s, e);
    LocksStep(s, e);
    GlobalStep(s, e);
    ListsStep(s, e);
    EntryStep(s, e);
    ThreadStep(s, e);
    forall d | 0 <= d < |s'.threads|
      ensures ThreadOk(s', d) && Unanswered(s', d)
    {
      UnansweredStep(s, e, d);
      if d != e.c { OthersStep(s, e, d); }
    }
    hide Unanswered, ThreadOk, ListsOk, LocksOk, EntryOk, GlobalOk, Apply, Enabled;
  }

  lemma ArriveKeepsThread(s: State, level: nat, d: nat)
    requires d < |s.threads| && ThreadOk(s, d) && |s.lists| == |s.threads|
    ensures ThreadOk(Apply(s, Arrive(level)), d)
    ensures Unanswered(s, d) ==> Unanswered(Apply(s, Arrive(level)), d)
  {
    hide HoldsGlobal;
  }

  lemma ArriveKeepsLists(s: State, level: nat)
    requires ListsOk(s)
    ensures ListsOk(Apply(s, Arrive(level)))
  {
    var s' := Apply(s, Arrive(level));
    forall u, l | 0 <= u < |s'.lists| && 0 <= l < |s'.lists[u]|
      ensures ListOk(s', u, l)
    {
      if u < |s.lists| {
        assert ListOk(s, u, l);
      }
    }
  }

  lemma ArriveKeepsEntry(s: State, level: nat)
    requires EntryOk(s) && GlobalOk(s)
    ensures EntryOk(Apply(s, Arrive(level)))
    ensures GlobalOk(Apply(s, Arrive(level)))
  {
    var s' := Apply(s, Arrive(level));
    assert forall d | 0 <= d < |s.threads| :: s'.threads[d] == s.threads[d];
  }

  lemma InvArrive(s: State, level: nat)
    requires Inv(s)
    ensures Inv(Apply(s, Arrive(level)))
  {
    var s' := Apply(s, Arrive(level));
    LocksArrive(s, level);
    ArriveKeepsLists(s, level);
    ArriveKeepsEntry(s, level);
    forall d | 0 <= d < |s'.threads|
      ensures ThreadOk(s', d) && Unanswered(s', d)
    {
      if d < |s.threads| { ArriveKeepsThread(s, level, d); }
    }
    hide ThreadOk, ListsOk, LocksOk, EntryOk, GlobalOk;
  }

  lemma InvStart(m: nat)
    ensures Inv(Start(m))
  {
  }

  /** A run: any number of calls, interleaved in any way. */
  ghost predicate IsRun(m: nat, events: seq<Event>, states: seq<State>) {
    && |states| == |events| + 1 && states[0] == Start(m)
    && forall i | 0 <= i < |events| :: Enabled(states[i], events[i]) && states[i + 1] == Apply(states[i], events[i])
  }

  lemma {:induction false} InvHolds(m: nat, events: seq<Event>, states: seq<State>, i: nat)
    requires IsRun(m, events, states) && i < |states|
    ensures Inv(states[i]) && states[i].m == m
  {
    if i == 0 {
      InvStart(m);
    } else {
      InvHolds(m, events, states, i - 1);
      var e := events[i - 1];
      assert Enabled(states[i - 1], e) && states[i - 1 + 1] == Apply(states[i - 1], e);
      if e.Arrive? { InvArrive(states[i - 1], e.level); } else { InvStep(states[i - 1], e); }
    }
  }

  // ---------------------------------------------------------------- nothing is thrown

  /** In no interleaving does a call run into an error while it searches, descends or links. */
  lemma NothingThrows(m: nat, events: seq<Event>, states: seq<State>, i: nat, c: nat)
    requires IsRun(m, events, states) && i < |states| && c < |states[i].threads|
    ensures !Throws(states[i], c)
  {
    InvHolds(m, events, states, i);
    CannotThrow(states[i], c);
  }

  /** What that means for a call about to read a list, to write its own, or to ask a neighbour: the list is
      there and holds existing elements; its own is blank and every selected neighbour reaches the level; the
      neighbour is another element, within its capacity. */
  lemma EveryListServes(m: nat, events: seq<Event>, states: seq<State>, i: nat, c: nat)
    requires IsRun(m, events, states) && i < |states| && c < |states[i].threads|
    ensures var s, p := states[i], states[i].threads[c].phase;
            && |s.lists| == |s.threads|
            && (p.Descending? || p.Expanding? ==>
                  var n := if p.Descending? then p.obj else p.n;
                  n < |s.lists| && p.lvl < |s.lists[n]| && forall v | v in ListAt(s.lists[n], p.lvl) :: v < |s.threads|)
            && (p.Chosen? ==>
                  && |p.sel| <= m && p.lvl < |s.lists[c]| && s.lists[c][p.lvl] == LinkList(0, seq(Capacity(m, p.lvl), _ => 0))
                  && forall v | v in p.sel :: v < |s.threads| && p.lvl <= s.threads[v].level)
            && (p.Linking? && p.idx < |p.sel| ==>
                  var n := p.sel[p.idx];
                  n < |s.lists| && n != c && p.lvl <= s.threads[n].level && p.lvl < |s.lists[n]| && s.lists[n][p.lvl].size <= Capacity(m, p.lvl))
  {
    InvHolds(m, events, states, i);
    ListsServe(states[i], c);
  }

  lemma ListsServe(s: State, c: nat)
    requires Inv(s) && c < |s.threads|
    ensures var p := s.threads[c].phase;
            && |s.lists| == |s.threads|
            && (p.Descending? || p.Expanding? ==>
                  var n := if p.Descending? then p.obj else p.n;
                  n < |s.lists| && p.lvl < |s.lists[n]| && forall v | v in ListAt(s.lists[n], p.lvl) :: v < |s.threads|)
            && (p.Chosen? ==>
                  && |p.sel| <= s.m && p.lvl < |s.lists[c]| && s.lists[c][p.lvl] == LinkList(0, seq(Capacity(s.m, p.lvl), _ => 0))
                  && forall v | v in p.sel :: v < |s.threads| && p.lvl <= s.threads[v].level)
            && (p.Linking? && p.idx < |p.sel| ==>
                  var n := p.sel[p.idx];
                  n < |s.lists| && n != c && p.lvl <= s.threads[n].level && p.lvl < |s.lists[n]| && s.lists[n][p.lvl].size <= Capacity(s.m, p.lvl))
  {
    assert ThreadOk(s, c);
    hide Inv, LocksOk, GlobalOk, EntryOk;
    assert ListsOk(s);
    var p := s.threads[c].phase;
    match p
    case Descending(_, obj, lvl, _) => SeenHasList(s, obj, lvl);
    case Expanding(_, _, lvl, _, n, _) => SeenHasList(s, n, lvl);
    case Chosen(_, _, lvl, sel) => assert ListOk(s, c, lvl);
    case Linking(_, _, lvl, sel, idx, began, _) =>
      if idx < |sel| {
        assert SeenBefore(s, sel[idx], lvl, began);
        SeenHasList(s, sel[idx], lvl);
      }
    case _ =>
  }

  lemma CannotThrow(s: State, c: nat)
    requires Inv(s) && c < |s.threads|
    ensures !Throws(s, c)
  {
    assert ThreadOk(s, c);
    hide Inv, LocksOk, GlobalOk, EntryOk;
    assert ListsOk(s);
    var p := s.threads[c].phase;
    match p
    case Descending(_, obj, lvl, _) => SeenHasList(s, obj, lvl);
    case Expanding(_, _, lvl, _, n, _) => SeenHasList(s, n, lvl);
    case Chosen(_, _, lvl, sel) => assert ListOk(s, c, lvl);
    case Linking(_, _, lvl, sel, idx, began, _) =>
      if idx < |sel| {
        assert SeenBefore(s, sel[idx], lvl, began);
        SeenHasList(s, sel[idx], lvl);
      }
    case _ =>
  }

  lemma SeenHasList(s: State, n: nat, l: nat)
    requires ListsOk(s) && Seen(s, n, l)
    ensures HasList(s, n, l) && !ListFails(s.lists[n][l], |s.threads|) && s.lists[n][l].size <= Capacity(s.m, l)
  {
    assert ListOk(s, n, l);
  }

  // ---------------------------------------------------------------- the graph

  /** In every state of every interleaving the lists form a good graph: each within its capacity, without
      repetitions or self links, and only with links to elements that reach the level. */
  lemma GraphIsGood(m: nat, events: seq<Event>, states: seq<State>, i: nat)
    requires IsRun(m, events, states) && i < |states|
    ensures GoodGraph(states[i].lists, LevelsOf(states[i]), m)
  {
    InvHolds(m, events, states, i);
    var s := states[i];
    forall c, l | 0 <= c < |s.lists| && 0 <= l < |s.lists[c]|
      ensures GoodList(s.lists[c][l], Capacity(m, l), c, l, LevelsOf(s))
    {
      assert ListOk(s, c, l);
    }
    hide Inv, GoodList;
    assert forall c | 0 <= c < |s.lists| :: GoodNode(s.lists[c], m, c, LevelsOf(s));
  }

  // ---------------------------------------------------------------- no deadlock

  /** Call c is blocked on a lock that call d holds. */
  predicate WaitsFor(s: State, c: nat, d: nat)
    requires c < |s.threads|
  {
    var p := s.threads[c].phase;
    || (p.AtGlobal? && s.global == Some(d))
    || (Wants(c, p).Some? && Wants(c, p).value in s.lock && s.lock[Wants(c, p).value] == d)
  }

  predicate Waits(s: State, c: nat)
    requires c < |s.threads|
  {
    exists d | 0 <= d < |s.threads| :: WaitsFor(s, c, d)
  }

  /** The order behind the protocol: calls before the global lock last, then by level, searching after
      linking, and linking by the time it began. */
  function Rank(p: Phase): (nat, nat, nat, nat) {
    match p
    case Arrived => (2, 0, 0, 0)
    case AtGlobal => (2, 0, 0, 0)
    case Descending(_, _, lvl, _) => (1, lvl, 1, 0)
    case Searching(_, _, lvl, _) => (1, lvl, 1, 0)
    case Expanding(_, _, lvl, _, _, _) => (1, lvl, 1, 0)
    case Linking(_, _, lvl, _, _, began, _) => (1, lvl, 0, began)
    case _ => (0, 0, 0, 0)
  }

  predicate Lower(a: (nat, nat, nat, nat), b: (nat, nat, nat, nat)) {
    || a.0 < b.0
    || (a.0 == b.0 && (a.1 < b.1 || (a.1 == b.1 && (a.2 < b.2 || (a.2 == b.2 && a.3 < b.3)))))
  }

  /** A call that is blocked waits for one of lower rank, or for one that is not blocked itself. */
  lemma WaitsForLower(s: State, c: nat, d: nat)
    requires Inv(s) && c < |s.threads| && WaitsFor(s, c, d)
    ensures d < |s.threads| && !s.threads[d].phase.Done?
    ensures Waits(s, d) ==> Lower(Rank(s.threads[d].phase), Rank(s.threads[c].phase))
  {
    var p, r := s.threads[c].phase, s.threads[d].phase;
    assert ThreadOk(s, c);
    if p.AtGlobal? {
    } else {
      var n := Wants(c, p).value;
      assert n in Held(d, s.threads[d].phase);
      assert ThreadOk(s, d);
      hide Inv, ListsOk, EntryOk, GlobalOk, LocksOk;
      if p.Linking? {
        assert SeenBefore(s, n, p.lvl, p.began);
      } else if !p.Arrived? {
        assert Seen(s, n, p.lvl);
      }
    }
  }

  lemma LowerIsOrder(a: (nat, nat, nat, nat), b: (nat, nat, nat, nat), c: (nat, nat, nat, nat))
    ensures !Lower(a, a)
    ensures Lower(a, b) && Lower(b, c) ==> Lower(a, c)
  {
  }

  /** Calls each blocked on the next one. */
  ghost predicate IsWaitingChain(s: State, chain: seq<nat>) {
    && |chain| > 0 && (forall i | 0 <= i < |chain| :: chain[i] < |s.threads|)
    && forall i | 0 <= i < |chain| - 1 :: WaitsFor(s, chain[i], chain[i + 1])
  }

  lemma {:induction false} ChainDescends(s: State, chain: seq<nat>)
    requires Inv(s) && IsWaitingChain(s, chain) && |chain| > 1 && Waits(s, chain[|chain| - 1])
    ensures Lower(Rank(s.threads[chain[|chain| - 1]].phase), Rank(s.threads[chain[0]].phase))
  {
    hide Inv, WaitsFor, Rank, Lower;
    var last := |chain| - 1;
    assert WaitsFor(s, chain[last - 1], chain[last - 1 + 1]);
    WaitsForLower(s, chain[last - 1], chain[last]);
    if |chain| > 2 {
      var shorter := chain[..last];
      assert IsWaitingChain(s, shorter);
      ChainDescends(s, shorter);
      LowerIsOrder(Rank(s.threads[chain[last]].phase), Rank(s.threads[chain[last - 1]].phase), Rank(s.threads[chain[0]].phase));
    }
  }

  /** In no interleaving is there a cycle of calls waiting for each other's locks, the global one included;
      in particular no call waits for a lock it holds itself. */
  lemma NoDeadlock(m: nat, events: seq<Event>, states: seq<State>, i: nat, chain: seq<nat>)
    requires IsRun(m, events, states) && i < |states| && IsWaitingChain(states[i], chain)
    ensures !WaitsFor(states[i], chain[|chain| - 1], chain[0])
  {
    InvHolds(m, events, states, i);
    NoCycle(states[i], chain);
  }

  lemma NoCycle(s: State, chain: seq<nat>)
    requires Inv(s) && IsWaitingChain(s, chain)
    ensures !WaitsFor(s, chain[|chain| - 1], chain[0])
  {
    hide Inv, WaitsFor, Rank, Lower;
    var first, last := chain[0], chain[|chain| - 1];
    var a, b := Rank(s.threads[first].phase), Rank(s.threads[last].phase);
    LowerIsOrder(a, b, a);
    LowerIsOrder(b, a, b);
    if WaitsFor(s, last, first) {
      if |chain| > 1 {
        assert WaitsFor(s, chain[0], chain[0 + 1]);
        ChainDescends(s, chain);
      }
      WaitsForLower(s, last, first);
    }
  }

  /** Every list can answer: if it is full, it may happen that all its ids are nearer to the new element. */
  lemma SomeAnswer(c: nat, n: nat, capacity: nat, before: LinkList) returns (list: LinkList)
    requires |before.data| == capacity && before.size <= capacity && n !in before.data[..before.size]
    ensures MayAnswer(c, n, capacity, before, list)
  {
    var ids := before.data[..before.size];
    var top := Largest(ids + [c, n]) + 1;
    LargestBounds(ids + [c, n]);
    var dist, vs := ToOnly([n as real]), seq(top, v => [v as real]);
    assert forall j | 0 <= j < |ids| :: (ids + [c, n])[j] == ids[j];
    assert (ids + [c, n])[|ids|] == c && (ids + [c, n])[|ids| + 1] == n;
    if before.size < capacity {
      list := LinkList(before.size + 1, before.data[before.size := c]);
      assert list.data[..list.size] == ids + [c];
    } else {
      var order := if capacity == 0 then [] else [Pair(1.0, c)];
      list := LinkList(|order|, if capacity == 0 then [] else before.data[0 := c]);
      FullAnswer(dist, vs, c, n, ids, order, capacity, list);
    }
    assert Hnsw.BackLinked(dist, vs, c, n, capacity, before, list);
  }

  /** Everything is at distance 1 from one vector, and at distance 0 from all others. */
  ghost function ToOnly(far: Vector): (dist: (Vector, Vector) -> real)
    ensures forall x, y :: dist(x, y) == if y == far then 1.0 else 0.0
  {
    (x, y) => if y == far then 1.0 else 0.0
  }

  lemma FullAnswer(dist: (Vector, Vector) -> real, vs: seq<Vector>, c: nat, n: nat, ids: seq<nat>, order: seq<Pair>, capacity: nat, list: LinkList)
    requires c < |vs| && n < |vs| && (forall j | 0 <= j < |ids| :: ids[j] < |vs|) && n !in ids && |ids| == capacity
    requires forall v | 0 <= v < |vs| :: dist(vs[v], vs[n]) == 1.0
    requires forall v | 0 <= v < |vs| && v != n :: dist(vs[c], vs[v]) == 0.0
    requires order == if capacity == 0 then [] else [Pair(1.0, c)]
    requires list.size == |order| <= |list.data| && (capacity > 0 ==> list.data[0] == c)
    ensures Hnsw.PrunedTo(dist, vs, Hnsw.CandidatesOf(dist, vs, c, n, ids), order, capacity, list)
  {
    hide Pruned, FarthestFirst, Ids, Elements, Distinct;
    var q := Hnsw.CandidatesOf(dist, vs, c, n, ids);
    assert forall r | r in q :: r.first == 1.0 && (r.second == c || r.second in ids);
    OneKept(dist, vs, q, c, n, order, capacity);
    hide Hnsw.CandidatesOf;
    OneListed(order, c, list.data[..list.size]);
  }

  lemma OneListed(order: seq<Pair>, c: nat, ids: seq<nat>)
    requires |order| == |ids| && (order == [] || (order == [Pair(1.0, c)] && ids == [c]))
    ensures Distinct(ids) && FarthestFirst(ids, Elements(order)) && forall v :: v in ids <==> v in Ids(Elements(order))
  {
    if order == [] {
      assert Elements(order) == {} && ids == [];
    } else {
      assert order[0] in Elements(order);
    }
  }

  /** A node that is at distance 0 from all the others keeps them out. */
  lemma OneKept(dist: (Vector, Vector) -> real, vs: seq<Vector>, q: Queue, c: nat, n: nat, order: seq<Pair>, capacity: nat)
    requires c < |vs| && InRange(q, |vs|) && Pair(1.0, c) in q && forall r | r in q :: r.first == 1.0 && (r.second == c || r.second != n)
    requires forall v | 0 <= v < |vs| && v != n :: dist(vs[c], vs[v]) == 0.0
    requires order == if capacity == 0 then [] else [Pair(1.0, c)]
    ensures Pruned(dist, vs, q, order, capacity)
  {
    forall r | r in q && r !in order
      ensures capacity > 0 ==> Shadowed(dist, vs, order, r)
    {
      if capacity > 0 {
        assert order[0].first <= r.first && dist(vs[order[0].second], vs[r.second]) < r.first;
      }
    }
  }

  lemma {:induction false} LargestBounds(ids: seq<nat>)
    ensures forall i | 0 <= i < |ids| :: ids[i] <= Largest(ids)
  {
    if ids != [] { LargestBounds(ids[1..]); }
  }

  function Largest(ids: seq<nat>): nat {
    if ids == [] then 0 else if ids[0] > Largest(ids[1..]) then ids[0] else Largest(ids[1..])
  }

  /** A call that is not blocked can take its next step. */
  lemma CanMove(s: State, c: nat) returns (e: Event)
    requires Inv(s) && c < |s.threads| && !s.threads[c].phase.Done? && !Waits(s, c)
    ensures !e.Arrive? && e.c == c && Enabled(s, e)
  {
    assert ThreadOk(s, c);
    var p := s.threads[c].phase;
    BlockedWaits(s, c);
    CannotThrow(s, c);
    match p {
      case Arrived => e := LockOwn(c);
      case AtGlobal => e := LockGlobal(c);
      case GotGlobal(_) => e := MaybeUnlockGlobal(c);
      case AtEntry(_) => e := ReadEntry(c);
      case FirstEntry => e := SetFirstEntry(c);
      case FirstLevel => e := SetFirstLevel(c);
      case Descending(_, _, _, inside) => e := if inside then DescendRead(c, None) else LockNode(c);
      case Searching(_, obj, _, _) => e := PickCandidate(c, obj);
      case Expanding(_, _, _, _, _, inside) => e := if inside then ReadNeighbors(c) else LockNode(c);
      case Chosen(_, _, _, _) => e := WriteOwn(c);
      case Linking(_, _, lvl, sel, idx, began, inside) =>
        if inside {
          var n := sel[idx];
          assert SeenBefore(s, n, lvl, began);
          SeenHasList(s, n, lvl);
          assert ListOk(s, n, lvl) && n !in s.lists[n][lvl].data[..s.lists[n][lvl].size];
          var list := SomeAnswer(c, n, Capacity(s.m, lvl), s.lists[n][lvl]);
          e := WriteLink(c, list);
        } else {
          e := if idx == |sel| then EndLevel(c) else LockNode(c);
        }
      case Publishing(_) => e := SetEntry(c);
      case Published(_) => e := SetMaxLevel(c);
      case Leaving(_) => e := Leave(c);
    }
  }

  /** A call whose next lock is taken waits for the call that holds it. */
  lemma BlockedWaits(s: State, c: nat)
    requires Inv(s) && c < |s.threads|
    ensures s.threads[c].phase.AtGlobal? && s.global.Some? ==> Waits(s, c)
    ensures Wants(c, s.threads[c].phase).Some? && Wants(c, s.threads[c].phase).value in s.lock ==> Waits(s, c)
  {
    var w := Wants(c, s.threads[c].phase);
    if w.Some? && w.value in s.lock {
      assert WaitsFor(s, c, s.lock[w.value]);
    }
    if s.threads[c].phase.AtGlobal? && s.global.Some? {
      assert WaitsFor(s, c, s.global.value);
    }
  }

  /** Following the waits from any unfinished call ends at one that can move. */
  lemma {:induction false} SomeoneMoves(s: State, c: nat) returns (e: Event)
    requires Inv(s) && c < |s.threads| && !s.threads[c].phase.Done?
    ensures !e.Arrive? && Enabled(s, e)
    decreases Rank(s.threads[c].phase).0, Rank(s.threads[c].phase).1, Rank(s.threads[c].phase).2, Rank(s.threads[c].phase).3, 1
  {
    if Waits(s, c) {
      var d :| 0 <= d < |s.threads| && WaitsFor(s, c, d);
      WaitsForLower(s, c, d);
      if Waits(s, d) {
        e := SomeoneMoves(s, d);
      } else {
        e := CanMove(s, d);
      }
    } else {
      e := CanMove(s, c);
    }
  }

  /** As long as a call is unfinished, some call can move, in every interleaving. */
  lemma AlwaysProgress(m: nat, events: seq<Event>, states: seq<State>, i: nat, c: nat) returns (e: Event)
    requires IsRun(m, events, states) && i < |states| && c < |states[i].threads| && !states[i].threads[c].phase.Done?
    ensures !e.Arrive? && Enabled(states[i], e)
  {
    InvHolds(m, events, states, i);
    e := SomeoneMoves(states[i], c);
  }
}
