/** Arithmetic on the indices of a cyclic array of n buckets. */
module Cyclic {

  /** The bucket probed after bucket i. */
  function Next(i: nat, n: nat): (r: nat)
    requires i < n
    ensures r < n
  {
    if i + 1 == n then 0 else i + 1
  }

  function Prev(i: nat, n: nat): (r: nat)
    requires i < n
    ensures r < n
    ensures Next(r, n) == i
  {
    if i == 0 then n - 1 else i - 1
  }

  /** How many steps of Next lead from i to j. */
  function Dist(i: nat, j: nat, n: nat): (d: nat)
    requires i < n && j < n
    ensures d < n
    ensures d == 0 <==> i == j
  {
    if i <= j then j - i else j - i + n
  }

  lemma DistNext(i: nat, j: nat, n: nat)
    requires i < n && j < n
    ensures i != j ==> Dist(Next(i, n), j, n) == Dist(i, j, n) - 1
    ensures Next(j, n) != i ==> Dist(i, Next(j, n), n) == Dist(i, j, n) + 1
    ensures Next(j, n) == i <==> Dist(i, j, n) == n - 1
  {
  }

  /** Going from i to k through j costs one extra turn exactly when j is not on the way. */
  lemma DistVia(i: nat, j: nat, k: nat, n: nat)
    requires i < n && j < n && k < n
    ensures Dist(i, j, n) + Dist(j, k, n) ==
            Dist(i, k, n) + (if Dist(i, j, n) <= Dist(i, k, n) then 0 else n)
  {
  }
}
