/** Facts about sequences that occur inside longer sequences. */
module Seqs {

  /** s occurs in xs starting at position base. */
  predicate At<T(==)>(xs: seq<T>, base: nat, s: seq<T>) {
    base + |s| <= |xs| && forall k :: 0 <= k < |s| ==> xs[base + k] == s[k]
  }

  lemma AtSplit<T>(xs: seq<T>, base: nat, a: seq<T>, b: seq<T>)
    requires At(xs, base, a + b)
    ensures At(xs, base, a) && At(xs, base + |a|, b)
  {
    forall k | 0 <= k < |a| ensures xs[base + k] == a[k] {
      assert (a + b)[k] == a[k];
    }
    forall k | 0 <= k < |b| ensures xs[base + |a| + k] == b[k] {
      assert xs[base + (|a| + k)] == (a + b)[|a| + k];
    }
  }

  lemma AtSelf<T>(s: seq<T>)
    ensures At(s, 0, s)
  {
  }
}
