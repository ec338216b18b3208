/** What a call does to its own list and to those of the neighbours it selects, over every run of concurrent
    insertion. */
module InsertHistories {
  import opened ConcurrentInsert

  /** The list of a call that is linking a level holds exactly what it selected there. */
  ghost predicate OwnListed(s: State, c: nat)
    requires c < |s.threads|
  {
    var p := s.threads[c].phase;
    p.Linking? ==> LinksOf(s, c, p.lvl) == p.sel
  }

  /** A call holds the lock of its own node from when it has got it until it returns. */
  lemma OwnLock(c: nat, p: Phase)
    ensures c in Held(c, p) <==> !p.Arrived? && !p.Done?
  {
  }

  /** Nobody else writes the list of a call that holds its own lock. */
  lemma OthersLeaveIt(s: State, e: Event, c: nat)
    requires Inv(s) && Enabled(s, e) && !e.Arrive? && c < |s.threads| && e.c != c
    requires !s.threads[c].phase.Arrived? && !s.threads[c].phase.Done?
    ensures |Apply(s, e).lists| == |s.lists| && c < |s.lists| && Apply(s, e).lists[c] == s.lists[c]
  {
    OwnLock(c, s.threads[c].phase);
    assert s.lock[c] == c;
    hide Inv, Throws, MayAnswer, Selects;
  }

  /** On a level where it has begun to link, the list of a call stays as it is until the call returns. */
  lemma OwnListStill(s: State, e: Event, c: nat, l: nat)
    requires Inv(s) && Enabled(s, e) && c < |s.threads| && !s.threads[c].phase.Done? && OpenOn(s.threads[c].phase, l)
    ensures c < |Apply(s, e).threads| && OpenOn(Apply(s, e).threads[c].phase, l)
    ensures LinksOf(Apply(s, e), c, l) == LinksOf(s, c, l)
  {
    if !e.Arrive? {
      assert ThreadOk(s, e.c);
      if e.c == c {
        StepAdvances(s, e);
        OwnListStays(s, e, l);
      } else {
        OthersLeaveIt(s, e, c);
        hide Inv, Throws, MayAnswer, Selects, ThreadOk, OpenOn;
      }
    } else {
      hide Throws, MayAnswer, Selects, ThreadOk, OpenOn;
    }
  }

  lemma OwnListedStep(s: State, e: Event, c: nat)
    requires Inv(s) && Enabled(s, e) && !e.Arrive? && c < |s.threads| && OwnListed(s, c)
    ensures OwnListed(Apply(s, e), c)
  {
    if e.WriteOwn? && e.c == c {
      OwnListBegins(s, e);
    } else if s.threads[c].phase.Linking? {
      OwnListStill(s, e, c, s.threads[c].phase.lvl);
      LinkingKeeps(s, e, c);
      hide Inv, Enabled, Apply, LinksOf;
    } else {
      LinkingKeeps(s, e, c);
      hide Inv, Enabled, Apply, LinksOf;
    }
  }

  /** Linking begins with the own list, and level and selection stay the same. */
  lemma LinkingKeeps(s: State, e: Event, c: nat)
    requires Enabled(s, e) && !e.Arrive? && c < |s.threads| && !(e.WriteOwn? && e.c == c)
    ensures c < |Apply(s, e).threads|
    ensures var p, p' := s.threads[c].phase, Apply(s, e).threads[c].phase;
            p'.Linking? ==> p.Linking? && p'.lvl == p.lvl && p'.sel == p.sel
  {
    hide Throws, LinksOf, MayAnswer, Selects;
  }

  lemma OwnListBegins(s: State, e: Event)
    requires Inv(s) && Enabled(s, e) && e.WriteOwn?
    ensures OwnListed(Apply(s, e), e.c)
  {
    var p := s.threads[e.c].phase;
    assert ThreadOk(s, e.c) && ListOk(s, e.c, p.lvl);
    SelectedIsGood(s.lists[e.c][p.lvl], s.m, e.c, p.lvl, p.sel, LevelsOf(s));
    hide Inv, Throws, ThreadOk, ListOk;
  }

  /** One step of a run. */
  lemma RunStep(m: nat, events: seq<Event>, states: seq<State>, i: nat)
    requires IsRun(m, events, states) && i < |events|
    ensures Inv(states[i]) && Enabled(states[i], events[i]) && states[i + 1] == Apply(states[i], events[i])
    ensures |states[i].lists| == |states[i].threads|
  {
    InvHolds(m, events, states, i);
  }

  /** In every state of every run the list of a call that is linking a level is what it selected. */
  lemma {:induction false} OwnListHolds(m: nat, events: seq<Event>, states: seq<State>, i: nat, c: nat)
    requires IsRun(m, events, states) && i < |states| && c < |states[i].threads|
    ensures OwnListed(states[i], c)
  {
    hide Inv, Enabled, Apply, LinksOf;
    if i > 0 {
      RunStep(m, events, states, i - 1);
      var s, e := states[i - 1], events[i - 1];
      if e.Arrive? {
        if c < |s.threads| { OwnListHolds(m, events, states, i - 1, c); }
        ArriveListed(s, e.level, c);
      } else {
        StepThreads(s, e);
        OwnListHolds(m, events, states, i - 1, c);
        OwnListedStep(s, e, c);
      }
    }
  }

  lemma ArriveListed(s: State, level: nat, c: nat)
    requires |s.lists| == |s.threads| && (c < |s.threads| ==> OwnListed(s, c)) && c < |Apply(s, Arrive(level)).threads|
    ensures OwnListed(Apply(s, Arrive(level)), c)
  {
  }

  lemma StepThreads(s: State, e: Event)
    requires Enabled(s, e) && !e.Arrive?
    ensures |Apply(s, e).threads| == |s.threads|
  {
    hide Throws, MayAnswer, Selects, LinksOf;
  }

  /** What a call has selected on a level remains its list there until it returns. */
  lemma {:induction false} SelectedRemain(m: nat, events: seq<Event>, states: seq<State>, i: nat, j: nat, c: nat)
    requires IsRun(m, events, states) && i <= j < |states| && c < |states[i].threads| && states[i].threads[c].phase.Linking?
    requires forall k | i <= k < j :: c < |states[k].threads| && !states[k].threads[c].phase.Done?
    ensures var p := states[i].threads[c].phase;
            && c < |states[j].threads| && OpenOn(states[j].threads[c].phase, p.lvl)
            && LinksOf(states[j], c, p.lvl) == p.sel
  {
    if i == j {
      OwnListHolds(m, events, states, i, c);
      hide LinksOf;
    } else {
      hide LinksOf, OpenOn, Inv, Enabled, Apply;
      SelectedRemain(m, events, states, i, j - 1, c);
      RunStep(m, events, states, j - 1);
      OwnListStill(states[j - 1], events[j - 1], c, states[i].threads[c].phase.lvl);
    }
  }

  /** What a call reads in the list of a node it knows, it knows from then on. */
  lemma ReadIsKnown(m: nat, events: seq<Event>, states: seq<State>, i: nat)
    requires IsRun(m, events, states) && i < |events| && events[i].ReadNeighbors?
    ensures var c := events[i].c;
            && c < |states[i].threads| && c < |states[i + 1].threads|
            && states[i].threads[c].phase.Expanding? && states[i + 1].threads[c].phase.Searching?
            && var p, p' := states[i].threads[c].phase, states[i + 1].threads[c].phase;
               && p.n in p.known && p'.lvl == p.lvl
               && forall v :: v in p'.known <==> v in p.known || v in LinksOf(states[i], p.n, p.lvl)
  {
    RunStep(m, events, states, i);
    assert ThreadOk(states[i], events[i].c);
    hide Inv, Throws, LinksOf, MayAnswer, Selects, LevelOk;
  }

  /** In step k call c asks the j-th of the neighbours it has selected on a level. */
  ghost predicate Asks(events: seq<Event>, states: seq<State>, k: int, c: nat, lvl: nat, sel: seq<nat>, j: nat) {
    && 0 <= k < |events| && k < |states| && events[k].WriteLink? && events[k].c == c < |states[k].threads|
    && var p := states[k].threads[c].phase;
       p.Linking? && p.lvl == lvl && p.sel == sel && p.idx == j < |sel|
  }

  ghost predicate HasAsked(events: seq<Event>, states: seq<State>, i: nat, c: nat, lvl: nat, sel: seq<nat>, j: nat) {
    exists k :: k < i && Asks(events, states, k, c, lvl, sel, j)
  }

  /** Every neighbour that a call has passed in its list of selected ones, it has asked. */
  lemma {:induction false} PassedAreAsked(m: nat, events: seq<Event>, states: seq<State>, i: nat, c: nat, j: nat)
    requires IsRun(m, events, states) && i < |states| && c < |states[i].threads|
    requires states[i].threads[c].phase.Linking? && j < states[i].threads[c].phase.idx
    ensures HasAsked(events, states, i, c, states[i].threads[c].phase.lvl, states[i].threads[c].phase.sel, j)
  {
    hide Inv, Enabled, Apply, LinksOf;
    assert states[0] == Start(m) && i > 0;
    RunStep(m, events, states, i - 1);
    var s, e, p := states[i - 1], events[i - 1], states[i].threads[c].phase;
    LinkingStep(s, e, c);
    var p0 := s.threads[c].phase;
    if p0.idx == j {
      assert Asks(events, states, i - 1, c, p.lvl, p.sel, j);
    } else {
      PassedAreAsked(m, events, states, i - 1, c, j);
    }
  }

  /** A call that is linking was linking the same level before, or has asked nobody yet. */
  lemma LinkingStep(s: State, e: Event, c: nat)
    requires Inv(s) && Enabled(s, e) && c < |Apply(s, e).threads| && Apply(s, e).threads[c].phase.Linking?
    requires Apply(s, e).threads[c].phase.idx > 0
    ensures c < |s.threads| && s.threads[c].phase.Linking?
    ensures var p, p' := s.threads[c].phase, Apply(s, e).threads[c].phase;
            && p'.lvl == p.lvl && p'.sel == p.sel
            && (p'.idx == p.idx || (p'.idx == p.idx + 1 && e.WriteLink? && e.c == c && p.idx < |p.sel|))
  {
    hide Inv, Throws, LinksOf, MayAnswer, Selects;
  }

  /** When a call leaves a level its list there is what it selected, and it has asked each of these. */
  lemma LevelFinished(m: nat, events: seq<Event>, states: seq<State>, i: nat)
    requires IsRun(m, events, states) && i < |events| && events[i].EndLevel?
    ensures var c := events[i].c;
            && c < |states[i].threads| && states[i].threads[c].phase.Linking?
            && var p := states[i].threads[c].phase;
               && LinksOf(states[i], c, p.lvl) == p.sel
               && forall j: nat | j < |p.sel| :: HasAsked(events, states, i, c, p.lvl, p.sel, j)
  {
    RunStep(m, events, states, i);
    var c := events[i].c;
    OwnListHolds(m, events, states, i, c);
    hide Inv, Throws, LinksOf, MayAnswer, Selects, HasAsked;
    var p := states[i].threads[c].phase;
    forall j: nat | j < |p.sel|
      ensures HasAsked(events, states, i, c, p.lvl, p.sel, j)
    {
      PassedAreAsked(m, events, states, i, c, j);
    }
  }

  /** Over every run a list is read and written by the call that holds the lock of its node. */
  lemma AccessUnderLock(m: nat, events: seq<Event>, states: seq<State>, i: nat, u: nat)
    requires IsRun(m, events, states) && i < |events| && !events[i].Arrive?
    ensures var s, e := states[i], events[i];
            e.c < |s.threads| &&
            var p := s.threads[e.c].phase;
            && (u < |s.lists| && u < |states[i + 1].lists| && states[i + 1].lists[u] != s.lists[u] ==> u in s.lock && s.lock[u] == e.c)
            && (e.DescendRead? ==> p.Descending? && p.obj in s.lock && s.lock[p.obj] == e.c)
            && (e.ReadNeighbors? ==> p.Expanding? && p.n in s.lock && s.lock[p.n] == e.c)
  {
    RunStep(m, events, states, i);
    var s, e := states[i], events[i];
    HeldIsLocked(s, e.c);
    OwnLock(e.c, s.threads[e.c].phase);
    hide Inv, Throws, MayAnswer, Selects, LinksOf;
  }

  lemma HeldIsLocked(s: State, c: nat)
    requires Inv(s) && c < |s.threads|
    ensures forall v | v in Held(c, s.threads[c].phase) :: v in s.lock && s.lock[v] == c
  {
  }
}
