/** What a page split makes of the entries, whichever way each is sent: lists of their
    numbers for the two halves. */
module GistSplit {

  /** Every number of the order is in one half once, and each half has its seed. */
  predicate Halves(left: seq<nat>, right: seq<nat>, order: seq<nat>, seed1: nat, seed2: nat) {
    multiset(left) + multiset(right) == multiset(order) && seed1 in left && seed2 in right
  }

  /** All the numbers below n, in some order. */
  predicate IsOrder(order: seq<nat>, n: nat) {
    && |order| == n && (forall i :: 0 <= i < n ==> order[i] < n)
    && (forall i :: 0 <= i < n ==> i in order) && forall i, j :: 0 <= i < j < n ==> order[i] != order[j]
  }

  /** The numbers below n in their own order. */
  function Counting(n: nat): (order: seq<nat>)
    ensures IsOrder(order, n) && forall i :: 0 <= i < n ==> order[i] == i
  {
    if n == 0 then [] else Counting(n - 1) + [n - 1]
  }

  lemma CountingLength(n: nat)
    ensures |Counting(n)| == n
  {
  }

  /** The halves of the first k numbers; a seed among them is in its own. */
  predicate HalvesTo(left: seq<nat>, right: seq<nat>, order: seq<nat>, seed1: nat, seed2: nat, k: nat)
    requires k <= |order|
  {
    && multiset(left) + multiset(right) == multiset(order[..k])
    && (seed1 in order[..k] ==> seed1 in left) && (seed2 in order[..k] ==> seed2 in right)
    && (forall i :: i in left ==> i in order) && forall i :: i in right ==> i in order
  }

  lemma NoHalves(order: seq<nat>, seed1: nat, seed2: nat)
    ensures HalvesTo([], [], order, seed1, seed2, 0)
  {
  }

  lemma ToLeft(left: seq<nat>, right: seq<nat>, order: seq<nat>, seed1: nat, seed2: nat, k: nat)
    requires k < |order| && HalvesTo(left, right, order, seed1, seed2, k) && order[k] != seed2
    ensures HalvesTo(left + [order[k]], right, order, seed1, seed2, k + 1)
  {
    assert order[..k + 1] == order[..k] + [order[k]];
  }

  lemma ToRight(left: seq<nat>, right: seq<nat>, order: seq<nat>, seed1: nat, seed2: nat, k: nat)
    requires k < |order| && HalvesTo(left, right, order, seed1, seed2, k) && order[k] != seed1
    ensures HalvesTo(left, right + [order[k]], order, seed1, seed2, k + 1)
  {
    assert order[..k + 1] == order[..k] + [order[k]];
  }

  lemma AllHalves(left: seq<nat>, right: seq<nat>, order: seq<nat>, seed1: nat, seed2: nat)
    requires IsOrder(order, |order|) && seed1 < |order| && seed2 < |order|
    requires HalvesTo(left, right, order, seed1, seed2, |order|)
    ensures Halves(left, right, order, seed1, seed2)
  {
    assert order[..|order|] == order;
  }
}
