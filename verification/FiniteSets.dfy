/** Counting finite sets. */
module FiniteSets {

  /** Equally many elements on both sides of a bijection. */
  lemma {:induction false} SameCount<A, B>(s: set<A>, t: set<B>, to: map<A, B>, back: map<B, A>)
    requires forall x | x in s :: x in to && to[x] in t && to[x] in back && back[to[x]] == x
    requires forall y | y in t :: y in back && back[y] in s && back[y] in to && to[back[y]] == y
    ensures |s| == |t|
  {
    if s == {} {
      assert t == {} by {
        if y :| y in t { assert back[y] in s; }
      }
    } else {
      var x :| x in s;
      SameCount(s - {x}, t - {to[x]}, to, back);
    }
  }

  ghost function Below(n: nat): (s: set<nat>)
    ensures forall i: nat :: i in s <==> i < n
    ensures |s| == n
  {
    if n == 0 then {} else Below(n - 1) + {n - 1}
  }

  lemma {:induction false} SubsetCount<T>(s: set<T>, t: set<T>)
    requires s <= t
    ensures |s| <= |t|
  {
    if s != {} {
      var x :| x in s;
      SubsetCount(s - {x}, t - {x});
    }
  }

  lemma SubsetEqual<T>(s: set<T>, t: set<T>)
    requires s <= t && |s| == |t|
    ensures s == t
  {
    if s != t {
      var x :| x in t && x !in s;
      SubsetCount(s, t - {x});
    }
  }

  ghost function ToSet<T>(s: seq<T>): set<T> {
    set x | x in s
  }
}
