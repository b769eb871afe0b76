/**
 Integer arrays used as sets: the merge loops over sorted arrays and the
 in-place removal of duplicates.
 */
module IntSets {

  predicate Sorted(s: seq<int>) {
    forall i, j :: 0 <= i < j < |s| ==> s[i] <= s[j]
  }

  predicate Increasing(s: seq<int>) {
    forall i, j :: 0 <= i < j < |s| ==> s[i] < s[j]
  }

  lemma SomeElement(s: set<int>) returns (x: int)
    requires s != {}
    ensures x in s
  {
    EmptyOrNot(s);
    x :| x in s;
  }

  lemma EmptyOrNot(s: set<int>)
    ensures s == {} || exists x :: x in s
  {
    if !exists x :: x in s { assert s == {}; }
  }

  lemma SomethingMore(s: set<int>, t: set<int>) returns (x: int)
    requires t <= s && s != t
    ensures x in s && x !in t
  {
    SameOrMore(s, t);
    x :| x in s && x !in t;
  }

  lemma SameOrMore(s: set<int>, t: set<int>)
    requires t <= s
    ensures s == t || exists x :: x in s && x !in t
  {
    if !exists x :: x in s && x !in t { assert s == t; }
  }

  function Elems(s: seq<int>): set<int> {
    set x | x in s
  }

  /** Whether sorted set a contains sorted set b. */
  method InnerContains(a: seq<int>, b: seq<int>) returns (r: bool)
    requires Increasing(a) && Increasing(b)
    ensures r <==> Elems(b) <= Elems(a)
  {
    var i, j, n := 0, 0, 0;
    while i < |a| && j < |b|
      invariant 0 <= i <= |a| && 0 <= j == n <= |b|
      invariant forall k :: 0 <= k < j ==> b[k] in a
      invariant forall k :: 0 <= k < i && j < |b| ==> a[k] < b[j]
    {
      if a[i] < b[j] {
        i := i + 1;
      } else if a[i] == b[j] {
        n, i, j := n + 1, i + 1, j + 1;
      } else {
        assert forall k :: 0 <= k < |a| ==> a[k] != b[j];
        break;
      }
    }
    if n != |b| {
      assert b[j] !in a;
      assert b[j] in Elems(b);
    }
    return n == |b|;
  }

  /** Whether sorted arrays a and b have an element in common. */
  method InnerOverlap(a: seq<int>, b: seq<int>) returns (r: bool)
    requires Sorted(a) && Sorted(b)
    ensures r <==> Elems(a) * Elems(b) != {}
  {
    var i, j := 0, 0;
    while i < |a| && j < |b|
      invariant 0 <= i <= |a| && 0 <= j <= |b|
      invariant forall k, l :: 0 <= k < |a| && 0 <= l < |b| && (k < i || l < j) ==> a[k] != b[l]
    {
      if a[i] < b[j] {
        i := i + 1;
      } else if a[i] == b[j] {
        assert a[i] in Elems(a) * Elems(b);
        return true;
      } else {
        j := j + 1;
      }
    }
    return false;
  }

  /** The sorted array without repetitions, given a sorted array. */
  function Dedup(s: seq<int>): (r: seq<int>)
    ensures r == [] <==> s == []
    ensures s != [] ==> r[|r| - 1] == s[|s| - 1]
    ensures |r| <= |s| && forall x :: x in r <==> x in s
    ensures Sorted(s) ==> Increasing(r)
  {
    if |s| <= 1 then s
    else
      var r := Dedup(s[..|s| - 1]);
      assert s == s[..|s| - 1] + [s[|s| - 1]];
      if s[|s| - 1] == s[|s| - 2] then r else r + [s[|s| - 1]]
  }

  lemma DedupStep(s: seq<int>, n: nat)
    requires n < |s|
    ensures Dedup(s[..n + 1]) == if n > 0 && s[n] == s[n - 1] then Dedup(s[..n]) else Dedup(s[..n]) + [s[n]]
  {
    assert s[..n + 1][..n] == s[..n];
  }

  /** Removes repetitions of a sorted array in place; returns the new length. */
  method IntUnique(a: array<int>) returns (n: nat)
    requires Sorted(a[..])
    modifies a
    ensures n <= a.Length && a[..n] == Dedup(old(a[..]))
  {
    hide Dedup, Sorted;
    ghost var o := a[..];
    if a.Length < 2 {
      DedupShort(o);
      return a.Length;
    }
    var dr, tmp := 0, 0;
    DedupShort(o[..1]);
    while tmp < a.Length
      invariant 0 <= dr < a.Length && 0 <= tmp <= a.Length && dr <= tmp
      invariant tmp == 0 ==> dr == 0
      invariant tmp > 0 ==> dr < tmp && a[..dr + 1] == Dedup(o[..tmp])
      invariant forall k :: tmp <= k < a.Length ==> a[k] == o[k]
    {
      DedupStep(o, tmp);
      if tmp > 0 {
        assert a[dr] == a[..dr + 1][dr];
        assert o[..tmp][tmp - 1] == o[tmp - 1];
      }
      if a[tmp] != a[dr] {
        a[dr + 1] := a[tmp];
        dr := dr + 1;
        assert a[..dr + 1] == a[..dr] + [a[dr]];
      }
      tmp := tmp + 1;
      assert tmp == 1 ==> a[..1] == o[..1];
    }
    assert o[..tmp] == o;
    return dr + 1;
  }

  lemma DedupShort(s: seq<int>)
    requires |s| <= 1
    ensures Dedup(s) == s
  {
  }

  /** The merged union of two sorted sets. */
  method InnerUnion(a: seq<int>, b: seq<int>) returns (r: seq<int>)
    requires Increasing(a) && Increasing(b)
    ensures Increasing(r) && Elems(r) == Elems(a) + Elems(b)
  {
    hide Merged, Increasing;
    var i, j := 0, 0;
    r := [];
    MergedNone(a, b);
    while i < |a| && j < |b|
      invariant 0 <= i <= |a| && 0 <= j <= |b|
      invariant Merged(a, b, i, j, r)
      decreases |a| - i + |b| - j
    {
      if a[i] == b[j] {
        MergedSame(a, b, i, j, r);
        r, i, j := r + [a[i]], i + 1, j + 1;
      } else if a[i] < b[j] {
        MergedLeft(a, b, i, j, r);
        r, i := r + [a[i]], i + 1;
      } else {
        MergedRight(a, b, i, j, r);
        r, j := r + [b[j]], j + 1;
      }
    }
    while i < |a|
      invariant 0 <= i <= |a| && 0 <= j <= |b| && (i == |a| || j == |b|)
      invariant Merged(a, b, i, j, r)
    {
      MergedLeft(a, b, i, j, r);
      r, i := r + [a[i]], i + 1;
    }
    while j < |b|
      invariant i == |a| && 0 <= j <= |b|
      invariant Merged(a, b, i, j, r)
    {
      MergedRight(a, b, i, j, r);
      r, j := r + [b[j]], j + 1;
    }
    MergedAll(a, b, r);
  }

  /** r is the merge of the first i and j elements; the rest are larger. */
  ghost predicate Merged(a: seq<int>, b: seq<int>, i: nat, j: nat, r: seq<int>)
    requires i <= |a| && j <= |b|
  {
    && Increasing(r) && (forall x :: x in r <==> x in a[..i] || x in b[..j])
    && (r != [] && i < |a| ==> r[|r| - 1] < a[i]) && (r != [] && j < |b| ==> r[|r| - 1] < b[j])
  }

  lemma MergedNone(a: seq<int>, b: seq<int>)
    ensures Merged(a, b, 0, 0, [])
  {
  }

  lemma MergedSame(a: seq<int>, b: seq<int>, i: nat, j: nat, r: seq<int>)
    requires Increasing(a) && Increasing(b) && i < |a| && j < |b| && a[i] == b[j] && Merged(a, b, i, j, r)
    ensures Merged(a, b, i + 1, j + 1, r + [a[i]])
  {
    assert a[..i + 1] == a[..i] + [a[i]] && b[..j + 1] == b[..j] + [b[j]];
  }

  lemma MergedLeft(a: seq<int>, b: seq<int>, i: nat, j: nat, r: seq<int>)
    requires Increasing(a) && i < |a| && j <= |b| && (j < |b| ==> a[i] < b[j]) && Merged(a, b, i, j, r)
    ensures Merged(a, b, i + 1, j, r + [a[i]])
  {
    assert a[..i + 1] == a[..i] + [a[i]];
  }

  lemma MergedRight(a: seq<int>, b: seq<int>, i: nat, j: nat, r: seq<int>)
    requires Increasing(b) && i <= |a| && j < |b| && (i < |a| ==> b[j] < a[i]) && Merged(a, b, i, j, r)
    ensures Merged(a, b, i, j + 1, r + [b[j]])
  {
    assert b[..j + 1] == b[..j] + [b[j]];
  }

  lemma MergedAll(a: seq<int>, b: seq<int>, r: seq<int>)
    requires Merged(a, b, |a|, |b|, r)
    ensures Increasing(r) && Elems(r) == Elems(a) + Elems(b)
  {
    assert a[..|a|] == a && b[..|b|] == b;
    assert forall x :: x in r <==> x in a || x in b;
  }

  /** The merged intersection of two sorted sets. */
  method InnerInter(a: seq<int>, b: seq<int>) returns (r: seq<int>)
    requires Increasing(a) && Increasing(b)
    ensures Increasing(r) && Elems(r) == Elems(a) * Elems(b)
  {
    var i, j := 0, 0;
    r := [];
    while i < |a| && j < |b|
      invariant 0 <= i <= |a| && 0 <= j <= |b|
      invariant Increasing(r) && (forall x :: x in r ==> x in a && x in b)
      invariant forall k, l :: 0 <= k < |a| && 0 <= l < |b| && (k < i || l < j) && a[k] == b[l] ==> a[k] in r
      invariant r != [] ==> (i < |a| ==> r[|r| - 1] < a[i]) && (j < |b| ==> r[|r| - 1] < b[j])
      decreases |a| - i + |b| - j
    {
      if a[i] < b[j] {
        i := i + 1;
      } else if a[i] == b[j] {
        if r == [] || r[|r| - 1] != b[j] {
          r := r + [b[j]];
        }
        i, j := i + 1, j + 1;
      } else {
        j := j + 1;
      }
    }
  }

  /** Sorted arrays with the same elements are the same array. */
  lemma {:induction false} SameElems(a: seq<int>, b: seq<int>)
    requires Increasing(a) && Increasing(b)
    ensures a == b <==> Elems(a) == Elems(b)
  {
    if Elems(a) == Elems(b) && (a != [] || b != []) {
      assert a != [] ==> a[0] in Elems(b);
      assert b != [] ==> b[0] in Elems(a);
      LastIsGreatest(a);
      LastIsGreatest(b);
      var x, y := a[|a| - 1], b[|b| - 1];
      assert x in Elems(b) && y in Elems(a);
      SameElems(a[..|a| - 1], b[..|b| - 1]);
      assert a == a[..|a| - 1] + [x] && b == b[..|b| - 1] + [y];
    }
  }

  lemma LastIsGreatest(a: seq<int>)
    requires Increasing(a) && a != []
    ensures forall x :: x in Elems(a) ==> x <= a[|a| - 1]
    ensures Elems(a[..|a| - 1]) == Elems(a) - {a[|a| - 1]} && Increasing(a[..|a| - 1])
  {
    var a', x := a[..|a| - 1], a[|a| - 1];
    assert a == a' + [x];
    assert forall k :: 0 <= k < |a'| ==> a'[k] == a[k] && a[k] < x;
  }
}
