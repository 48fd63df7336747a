/** Which positions satisfy a condition, in order. */
module Listings {

  /** `at` lists exactly the positions below `n` that satisfy `cond`, in order. */
  ghost predicate Lists(at: seq<nat>, n: nat, cond: nat -> bool) {
    && (forall i, j :: 0 <= i < j < |at| ==> at[i] < at[j])
    && (forall i :: 0 <= i < |at| ==> at[i] < n && cond(at[i]))
    && (forall k: nat :: k < n && cond(k) ==> k in at)
  }

  lemma ListsSnoc(at: seq<nat>, n: nat, cond: nat -> bool)
    requires Lists(at, n, cond)
    ensures Lists(if cond(n) then at + [n] else at, n + 1, cond)
  {
    var b := if cond(n) then at + [n] else at;
    forall k: nat | k < n + 1 && cond(k) ensures k in b {
      if k == n { assert b[|at|] == n; } else { assert k in at; }
    }
  }

  lemma ListsNone(cond: nat -> bool)
    ensures Lists([], 0, cond)
  {
  }
}
