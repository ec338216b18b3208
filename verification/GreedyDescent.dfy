/** The greedy descent through the upper levels, on the links as values: a walk on each level, from level top
    down to just above level bottom. ds gives the distance of every node to the query. */
module GreedyDescent {
  import opened BeamSearch
  import opened HnswGraph

  /** One round of the loop moves from node c to the first of the nearest ids in its list, if it is nearer. */
  ghost predicate Hop(ds: seq<real>, list: seq<nat>, c: nat, next: nat) {
    && c < |ds| && next < |ds| && ds[next] < ds[c]
    && exists j :: FirstNearest(ds, list, next, j)
  }

  ghost predicate FirstNearest(ds: seq<real>, list: seq<nat>, next: nat, j: int)
    requires next < |ds|
  {
    && 0 <= j < |list| && list[j] == next && (forall i | 0 <= i < |list| :: list[i] < |ds| && ds[next] <= ds[list[i]])
    && forall i | 0 <= i < j :: ds[next] < ds[list[i]]
  }

  /** No id in the list of node c is nearer than c. */
  ghost predicate Settled(ds: seq<real>, list: seq<nat>, c: nat) {
    c < |ds| && forall i | 0 <= i < |list| :: list[i] < |ds| && ds[c] <= ds[list[i]]
  }

  ghost predicate Hops(g: Layer, ds: seq<real>, path: seq<nat>) {
    && |path| > 0 && (forall i | 0 <= i < |path| :: path[i] < |g|)
    && forall i | 0 <= i < |path| - 1 :: Hop(ds, g[path[i]], path[i], path[i + 1])
  }

  /** All rounds on one level; the last one changes nothing. */
  ghost predicate IsWalk(g: Layer, ds: seq<real>, path: seq<nat>) {
    Hops(g, ds, path) && Settled(ds, g[path[|path| - 1]], path[|path| - 1])
  }

  ghost function Last(path: seq<nat>): nat
    requires |path| > 0
  {
    path[|path| - 1]
  }

  /** One walk for each level from top down to bottom + 1, each starting where the one above has ended. */
  ghost predicate IsDescent(links: Links, ds: seq<real>, top: int, bottom: int, start: nat, paths: seq<seq<nat>>, end: nat) {
    && |paths| == (if top > bottom then top - bottom else 0)
    && (forall k | 0 <= k < |paths| :: WalkAt(links, ds, top, start, paths, k))
    && end == StartOf(start, paths, |paths|)
  }

  ghost predicate WalkAt(links: Links, ds: seq<real>, top: int, start: nat, paths: seq<seq<nat>>, k: nat)
    requires k < |paths|
  {
    top - k >= 0 && IsWalk(LayerOf(links, top - k), ds, paths[k]) && paths[k][0] == StartOf(start, paths, k)
  }

  /** Where the k-th walk starts. */
  ghost function StartOf(start: nat, paths: seq<seq<nat>>, k: nat): nat
    requires k <= |paths|
  {
    if k == 0 || paths[k - 1] == [] then start else Last(paths[k - 1])
  }

  /** The greedy descent from node start on level top ends in node end above level bottom. */
  ghost predicate Descends(links: Links, ds: seq<real>, top: int, bottom: int, start: nat, end: nat) {
    exists paths :: IsDescent(links, ds, top, bottom, start, paths, end)
  }

  lemma NoDescent(links: Links, ds: seq<real>, top: int, bottom: int, start: nat)
    requires top <= bottom
    ensures Descends(links, ds, top, bottom, start, start)
  {
    assert IsDescent(links, ds, top, bottom, start, [], start);
  }

  lemma HopTaken(g: Layer, ds: seq<real>, path: seq<nat>, next: nat)
    requires Hops(g, ds, path) && next < |g| && Hop(ds, g[Last(path)], Last(path), next)
    ensures Hops(g, ds, path + [next])
  {
    var longer := path + [next];
    forall i | 0 <= i < |longer| - 1
      ensures Hop(ds, g[longer[i]], longer[i], longer[i + 1])
    {
      assert i < |path| - 1 ==> Hop(ds, g[path[i]], path[i], path[i + 1]);
    }
  }

  /** One level more. */
  lemma DescentGrows(links: Links, ds: seq<real>, top: int, level: int, start: nat, paths: seq<seq<nat>>, mid: nat, path: seq<nat>)
    requires IsDescent(links, ds, top, level, start, paths, mid) && top >= level >= 0
    requires IsWalk(LayerOf(links, level), ds, path) && |path| > 0 && path[0] == mid
    ensures IsDescent(links, ds, top, level - 1, start, paths + [path], Last(path))
  {
    hide IsWalk, LayerOf;
    assert path != [] by { WalkHasNodes(LayerOf(links, level), ds, path); }
    var longer := paths + [path];
    forall k | 0 <= k < |longer|
      ensures WalkAt(links, ds, top, start, longer, k)
    {
      if k < |paths| { assert WalkAt(links, ds, top, start, paths, k); }
    }
  }

  lemma WalkHasNodes(g: Layer, ds: seq<real>, path: seq<nat>)
    requires IsWalk(g, ds, path)
    ensures path != []
  {
  }

  // ---------------------------------------------------------------- what a descent is good for

  lemma {:induction false} HopsDescend(g: Layer, ds: seq<real>, path: seq<nat>)
    requires Hops(g, ds, path) && path[0] < |ds|
    ensures Last(path) < |ds| && ds[Last(path)] <= ds[path[0]]
  {
    if |path| > 1 {
      var shorter := path[..|path| - 1];
      assert Hops(g, ds, shorter) by {
        forall i | 0 <= i < |shorter| - 1
          ensures Hop(ds, g[shorter[i]], shorter[i], shorter[i + 1])
        {
          assert Hop(ds, g[path[i]], path[i], path[i + 1]);
        }
      }
      HopsDescend(g, ds, shorter);
      assert Hop(ds, g[path[|path| - 2]], path[|path| - 2], path[|path| - 2 + 1]);
    }
  }

  /** It ends on a node no farther than its start, and nearer than none of whose neighbours on the last level. */
  lemma {:induction false} DescentEnds(links: Links, ds: seq<real>, top: int, bottom: int, start: nat, paths: seq<seq<nat>>, end: nat)
    requires IsDescent(links, ds, top, bottom, start, paths, end) && start < |ds|
    ensures end < |ds| && ds[end] <= ds[start]
    ensures top > bottom ==> bottom >= -1 && end < |links| && Settled(ds, ListAt(links[end], bottom + 1), end)
    decreases |paths|
  {
    hide IsWalk, LayerOf, Settled;
    if top > bottom {
      var n := |paths| - 1;
      assert WalkAt(links, ds, top, start, paths, n);
      WalkHasNodes(LayerOf(links, bottom + 1), ds, paths[n]);
      DescentShrinks(links, ds, top, bottom, start, paths, end);
      DescentEnds(links, ds, top, bottom + 1, start, paths[..n], StartOf(start, paths, n));
      WalkEnds(links, ds, bottom + 1, paths[n]);
    }
  }

  lemma WalkEnds(links: Links, ds: seq<real>, level: nat, path: seq<nat>)
    requires IsWalk(LayerOf(links, level), ds, path) && path != [] && path[0] < |ds|
    ensures Last(path) < |ds| && ds[Last(path)] <= ds[path[0]]
    ensures Last(path) < |links| && Settled(ds, ListAt(links[Last(path)], level), Last(path))
  {
    HopsDescend(LayerOf(links, level), ds, path);
  }

  lemma DescentShrinks(links: Links, ds: seq<real>, top: int, bottom: int, start: nat, paths: seq<seq<nat>>, end: nat)
    requires IsDescent(links, ds, top, bottom, start, paths, end) && top > bottom
    ensures IsDescent(links, ds, top, bottom + 1, start, paths[..|paths| - 1], StartOf(start, paths, |paths| - 1))
  {
    hide IsWalk, LayerOf;
    var shorter := paths[..|paths| - 1];
    forall k | 0 <= k < |shorter|
      ensures WalkAt(links, ds, top, start, shorter, k)
    {
      assert WalkAt(links, ds, top, start, paths, k);
    }
  }

  // ---------------------------------------------------------------- there is only one

  lemma HopIsUnique(ds: seq<real>, list: seq<nat>, c: nat, a: nat, b: nat)
    requires Hop(ds, list, c, a) && Hop(ds, list, c, b)
    ensures a == b
  {
    var i :| FirstNearest(ds, list, a, i);
    var j :| FirstNearest(ds, list, b, j);
  }

  lemma HopOrSettled(ds: seq<real>, list: seq<nat>, c: nat, a: nat)
    requires Hop(ds, list, c, a)
    ensures !Settled(ds, list, c)
  {
    var j :| FirstNearest(ds, list, a, j);
  }

  /** Two walks from the same node take the same hops. */
  lemma {:induction false} WalkIsUnique(g: Layer, ds: seq<real>, a: seq<nat>, b: seq<nat>)
    requires IsWalk(g, ds, a) && IsWalk(g, ds, b) && |a| > 0 && |b| > 0 && a[0] == b[0]
    ensures a == b
  {
    if |a| > 1 { assert Hop(ds, g[a[0]], a[0], a[0 + 1]); }
    if |b| > 1 { assert Hop(ds, g[b[0]], b[0], b[0 + 1]); }
    if |a| == 1 {
      if |b| > 1 { HopOrSettled(ds, g[b[0]], b[0], b[1]); }
      assert a == [a[0]] && b == [b[0]];
    } else {
      if |b| == 1 { HopOrSettled(ds, g[a[0]], a[0], a[1]); }
      HopIsUnique(ds, g[a[0]], a[0], a[1], b[1]);
      WalkGoesOn(g, ds, a);
      WalkGoesOn(g, ds, b);
      WalkIsUnique(g, ds, a[1..], b[1..]);
      assert a == [a[0]] + a[1..] && b == [b[0]] + b[1..];
    }
  }

  lemma WalkGoesOn(g: Layer, ds: seq<real>, path: seq<nat>)
    requires IsWalk(g, ds, path) && |path| > 1
    ensures IsWalk(g, ds, path[1..])
  {
    forall i | 0 <= i < |path[1..]| - 1
      ensures Hop(ds, g[path[1..][i]], path[1..][i], path[1..][i + 1])
    {
      assert Hop(ds, g[path[i + 1]], path[i + 1], path[i + 1 + 1]);
    }
  }

  lemma WalkAtIsUnique(links: Links, ds: seq<real>, top: int, start: nat, a: seq<seq<nat>>, b: seq<seq<nat>>, k: nat)
    requires k < |a| && k < |b| && WalkAt(links, ds, top, start, a, k) && WalkAt(links, ds, top, start, b, k)
    requires StartOf(start, a, k) == StartOf(start, b, k)
    ensures a[k] == b[k]
  {
    hide IsWalk, LayerOf;
    WalkHasNodes(LayerOf(links, top - k), ds, a[k]);
    WalkHasNodes(LayerOf(links, top - k), ds, b[k]);
    WalkIsUnique(LayerOf(links, top - k), ds, a[k], b[k]);
  }

  /** The links, the distances and the start determine every walk of a descent, and its end. */
  lemma {:induction false} WalksAreUnique(links: Links, ds: seq<real>, top: int, bottom: int, start: nat, a: seq<seq<nat>>, enda: nat, b: seq<seq<nat>>, endb: nat, n: nat)
    requires IsDescent(links, ds, top, bottom, start, a, enda) && IsDescent(links, ds, top, bottom, start, b, endb) && n <= |a|
    ensures a[..n] == b[..n]
  {
    hide WalkAt, StartOf;
    if n > 0 {
      WalksAreUnique(links, ds, top, bottom, start, a, enda, b, endb, n - 1);
      SameStart(start, a, b, n - 1);
      WalkAtIsUnique(links, ds, top, start, a, b, n - 1);
      assert a[..n] == a[..n - 1] + [a[n - 1]] && b[..n] == b[..n - 1] + [b[n - 1]];
    }
  }

  lemma SameStart(start: nat, a: seq<seq<nat>>, b: seq<seq<nat>>, k: nat)
    requires k <= |a| && k <= |b| && a[..k] == b[..k]
    ensures StartOf(start, a, k) == StartOf(start, b, k)
  {
    assert k > 0 ==> a[k - 1] == a[..k][k - 1] && b[k - 1] == b[..k][k - 1];
  }

  /** A descent has one end. */
  lemma DescentIsUnique(links: Links, ds: seq<real>, top: int, bottom: int, start: nat, a: nat, b: nat)
    requires Descends(links, ds, top, bottom, start, a) && Descends(links, ds, top, bottom, start, b)
    ensures a == b
  {
    var p :| IsDescent(links, ds, top, bottom, start, p, a);
    var r :| IsDescent(links, ds, top, bottom, start, r, b);
    hide WalkAt;
    WalksAreUnique(links, ds, top, bottom, start, p, a, r, b, |p|);
    assert p == p[..|p|] && r == r[..|p|];
  }
}
