/** Boxes of any number of dimensions, the missing ones taken as zero, and how a
    tree of bounding boxes answers searches and nearest-first scans. */
module Cube {
  import opened GistSplit

  /** Two corners, or one when the box is a point. */
  datatype Box = Box(point: bool, dim: nat, x: seq<real>)

  predicate Valid(b: Box) {
    |b.x| == if b.point then b.dim else 2 * b.dim
  }

  function Min(a: real, b: real): real {
    if a < b then a else b
  }

  function Max(a: real, b: real): real {
    if a > b then a else b
  }

  function LL(b: Box, i: nat): real
    requires Valid(b) && i < b.dim
  {
    b.x[i]
  }

  function UR(b: Box, i: nat): real
    requires Valid(b) && i < b.dim
  {
    if b.point then b.x[i] else b.x[i + b.dim]
  }

  /** The interval a box spans in dimension i. */
  function Lo(b: Box, i: nat): (r: real)
    requires Valid(b)
    ensures r <= Hi(b, i)
  {
    if i < b.dim then Min(LL(b, i), UR(b, i)) else 0.0
  }

  function Hi(b: Box, i: nat): real
    requires Valid(b)
  {
    if i < b.dim then Max(LL(b, i), UR(b, i)) else 0.0
  }

  function MaxDim(a: Box, b: Box): nat {
    if a.dim < b.dim then b.dim else a.dim
  }

  function MinDim(a: Box, b: Box): nat {
    if a.dim < b.dim then a.dim else b.dim
  }

  // ----- union -------------------------------------------------------------

  /** r spans exactly what a and b span. */
  predicate Spans(r: Box, a: Box, b: Box)
    requires Valid(r) && Valid(a) && Valid(b)
  {
    r.dim == MaxDim(a, b) &&
    forall i :: 0 <= i < r.dim ==> Lo(r, i) == Min(Lo(a, i), Lo(b, i)) && Hi(r, i) == Max(Hi(a, i), Hi(b, i))
  }

  /** The smallest box around two boxes; a box of no extent becomes a point. One object
      given for both, which one says, comes back as it is. */
  method UnionV0(p: Box, q: Box, one: bool) returns (r: Box)
    requires Valid(p) && Valid(q) && (one ==> p == q)
    ensures Valid(r) && Spans(r, p, q)
    ensures one ==> r == p
    ensures !one ==> (r.point <==> forall i :: 0 <= i < r.dim ==> Lo(r, i) == Hi(r, i))
  {
    if one {
      SpansItself(p);
      return p;
    }
    hide Spans, Lo, Hi;
    if p.dim < q.dim {
      r := UnionOfSwapped(q, p);
      SpansSwapped(r, q, p);
    } else {
      r := UnionOfSwapped(p, q);
    }
  }

  /** The union of a larger and a smaller box. */
  method UnionOfSwapped(a: Box, b: Box) returns (r: Box)
    requires Valid(a) && Valid(b) && a.dim >= b.dim
    ensures Valid(r) && Spans(r, a, b)
    ensures r.point <==> forall i :: 0 <= i < r.dim ==> Lo(r, i) == Hi(r, i)
  {
    hide Lo, Hi, Min, Max;
    var lo, hi := UnionBounds(a, b);
    var isPoint := AllSame(lo, hi);
    r := if isPoint then Box(true, a.dim, lo) else Box(false, a.dim, lo + hi);
    assert isPoint ==> lo == hi;
    BuiltFrom(r, lo, hi, a, b);
  }

  lemma SpansItself(p: Box)
    requires Valid(p)
    ensures Spans(p, p, p)
  {
  }

  lemma SpansSwapped(r: Box, a: Box, b: Box)
    requires Valid(r) && Valid(a) && Valid(b)
    ensures Spans(r, a, b) ==> Spans(r, b, a)
  {
    hide Lo, Hi;
  }

  /** The bounds of the union in each dimension of the larger box. */
  method UnionBounds(a: Box, b: Box) returns (los: seq<real>, his: seq<real>)
    requires Valid(a) && Valid(b) && a.dim >= b.dim
    ensures |los| == |his| == a.dim
    ensures forall k :: 0 <= k < a.dim ==> los[k] == Min(Lo(a, k), Lo(b, k)) && his[k] == Max(Hi(a, k), Hi(b, k))
  {
    var dim := a.dim;
    var lo := new real[dim](_ => 0.0);
    var hi := new real[dim](_ => 0.0);
    for i := 0 to dim
      invariant forall k :: 0 <= k < i ==> lo[k] == Min(Lo(a, k), Lo(b, k)) && hi[k] == Max(Hi(a, k), Hi(b, k))
    {
      if i < b.dim {
        lo[i] := Min(Min(LL(a, i), UR(a, i)), Min(LL(b, i), UR(b, i)));
        hi[i] := Max(Max(LL(a, i), UR(a, i)), Max(LL(b, i), UR(b, i)));
      } else {
        lo[i] := Min(0.0, Min(LL(a, i), UR(a, i)));
        hi[i] := Max(0.0, Max(LL(a, i), UR(a, i)));
      }
    }
    return lo[..], hi[..];
  }

  method AllSame(lo: seq<real>, hi: seq<real>) returns (r: bool)
    requires |lo| == |hi|
    ensures r <==> forall k :: 0 <= k < |lo| ==> lo[k] == hi[k]
  {
    for i := 0 to |lo|
      invariant forall k :: 0 <= k < i ==> lo[k] == hi[k]
    {
      if lo[i] != hi[i] {
        return false;
      }
    }
    return true;
  }

  lemma BuiltFrom(r: Box, lo: seq<real>, hi: seq<real>, a: Box, b: Box)
    requires Valid(a) && Valid(b) && |lo| == |hi| == a.dim && a.dim >= b.dim && r.dim == a.dim
    requires forall k :: 0 <= k < |lo| ==> lo[k] == Min(Lo(a, k), Lo(b, k)) && hi[k] == Max(Hi(a, k), Hi(b, k))
    requires if r.point then r.x == lo && lo == hi else r.x == lo + hi
    ensures Valid(r) && forall i :: 0 <= i < r.dim ==> Lo(r, i) == lo[i] && Hi(r, i) == hi[i]
  {
    forall i | 0 <= i < r.dim ensures Lo(r, i) == lo[i] && Hi(r, i) == hi[i] {
      assert lo[i] <= Lo(a, i) <= Hi(a, i) <= hi[i];
    }
  }

  /** The box of a node lies around a box below it in every dimension. */
  predicate Around(key: Box, c: Box)
    requires Valid(key) && Valid(c)
  {
    key.dim >= c.dim && forall i :: 0 <= i < key.dim ==> Lo(key, i) <= Lo(c, i) && Hi(c, i) <= Hi(key, i)
  }

  lemma SpansAround(r: Box, a: Box, b: Box, c: Box)
    requires Valid(r) && Valid(a) && Valid(b) && Valid(c) && Spans(r, a, b) && (Around(a, c) || Around(b, c))
    ensures Around(r, c)
  {
    forall i | 0 <= i < r.dim ensures Lo(r, i) <= Lo(c, i) && Hi(c, i) <= Hi(r, i) {
      var n := if Around(a, c) then a else b;
      if i < n.dim { assert Lo(n, i) <= Lo(c, i) && Hi(c, i) <= Hi(n, i); }
    }
  }

  lemma AroundSelf(c: Box)
    requires Valid(c)
    ensures Around(c, c)
  {
  }

  /** u lies around whatever k lies around. */
  ghost predicate Encloses(u: Box, k: Box)
    requires Valid(u) && Valid(k)
  {
    forall c :: Valid(c) && Around(k, c) ==> Around(u, c)
  }

  lemma UnionEncloses(r: Box, a: Box, b: Box)
    requires Valid(r) && Valid(a) && Valid(b) && Spans(r, a, b)
    ensures Encloses(r, a) && Encloses(r, b)
  {
    forall c | Valid(c) && (Around(a, c) || Around(b, c)) ensures Around(r, c) {
      SpansAround(r, a, b, c);
    }
  }

  lemma EnclosesTrans(u: Box, k: Box, m: Box)
    requires Valid(u) && Valid(k) && Valid(m) && Encloses(u, k) && Encloses(k, m)
    ensures Encloses(u, m)
  {
    hide Around;
  }

  /** The key of a node: the union of all its entries. There is none for a single
      entry, for which the function is not called. */
  method GistUnion(entries: seq<Box>) returns (ok: bool, out: Box)
    requires entries != [] && forall i :: 0 <= i < |entries| ==> Valid(entries[i])
    ensures ok <==> |entries| >= 2
    ensures Valid(out) && forall i :: 0 <= i < |entries| ==> Encloses(out, entries[i])
  {
    out := entries[0];
    assert Encloses(out, entries[0]);
    hide Encloses, Spans;
    for i := 1 to |entries|
      invariant Valid(out)
      invariant forall k :: 0 <= k < i ==> Encloses(out, entries[k])
    {
      var was := out;
      out := UnionV0(was, entries[i], false);
      UnionEncloses(out, was, entries[i]);
      forall k | 0 <= k < i ensures Encloses(out, entries[k]) {
        EnclosesTrans(out, was, entries[k]);
      }
    }
    ok := |entries| >= 2;
  }

  /** The box encloses its seed and the boxes sent to its half. */
  ghost predicate EnclosesAll(u: Box, keys: seq<Box>, seed: nat, sent: seq<nat>)
    requires Valid(u) && seed < |keys| && (forall i :: i in sent ==> i < |keys|)
    requires forall i :: 0 <= i < |keys| ==> Valid(keys[i])
  {
    Encloses(u, keys[seed]) && forall i :: i in sent ==> Encloses(u, keys[i])
  }

  lemma EnclosesMore(u: Box, u': Box, keys: seq<Box>, seed: nat, sent: seq<nat>, i: nat)
    requires Valid(u) && Valid(u') && seed < |keys| && i < |keys| && (forall j :: j in sent ==> j < |keys|)
    requires (forall j :: 0 <= j < |keys| ==> Valid(keys[j])) && EnclosesAll(u, keys, seed, sent)
    requires Encloses(u', u) && Encloses(u', keys[i])
    ensures EnclosesAll(u', keys, seed, sent + [i])
  {
    hide Encloses;
    EnclosesTrans(u', u, keys[seed]);
    forall j | j in sent + [i] ensures Encloses(u', keys[j]) {
      if j in sent { EnclosesTrans(u', u, keys[j]); }
    }
  }

  lemma EnclosesSelf(u: Box)
    requires Valid(u)
    ensures Encloses(u, u)
  {
  }

  lemma SeedStarts(u: Box, keys: seq<Box>, seed: nat)
    requires Valid(u) && seed < |keys| && (forall i :: 0 <= i < |keys| ==> Valid(keys[i])) && Spans(u, keys[seed], keys[seed])
    ensures EnclosesAll(u, keys, seed, [])
  {
    UnionEncloses(u, keys[seed], keys[seed]);
  }

  lemma SeedEnclosed(u: Box, keys: seq<Box>, seed: nat, sent: seq<nat>)
    requires Valid(u) && seed < |keys| && (forall i :: i in sent ==> i < |keys|)
    requires (forall i :: 0 <= i < |keys| ==> Valid(keys[i])) && EnclosesAll(u, keys, seed, sent)
    ensures Encloses(u, keys[seed])
  {
  }

  /** The split of boxes in the order they are in, whichever half each is sent to. The
      halves partition the boxes, neither is empty, and each union encloses its half. */
  method PickSplit(keys: seq<Box>, seed1: nat, seed2: nat, toLeft: seq<bool>)
    returns (left: seq<nat>, right: seq<nat>, l: Box, r: Box)
    requires |toLeft| == |keys| && seed1 < |keys| && seed2 < |keys| && seed1 != seed2
    requires forall i :: 0 <= i < |keys| ==> Valid(keys[i])
    ensures Halves(left, right, Counting(|keys|), seed1, seed2) && forall i :: i in left || i in right ==> i < |keys|
    ensures Valid(l) && Valid(r) && EnclosesAll(l, keys, seed1, left) && EnclosesAll(r, keys, seed2, right)
  {
    hide HalvesTo, Halves, Encloses, EnclosesAll, Spans, Valid, IsOrder, Counting;
    ghost var order := Counting(|keys|);
    CountingLength(|keys|);
    left, right := [], [];
    NoHalves(order, seed1, seed2);
    l := UnionV0(keys[seed1], keys[seed1], true);
    r := UnionV0(keys[seed2], keys[seed2], true);
    SeedStarts(l, keys, seed1);
    SeedStarts(r, keys, seed2);
    for i := 0 to |keys|
      invariant HalvesTo(left, right, order, seed1, seed2, i)
      invariant forall k :: k in left || k in right ==> k < |keys|
      invariant Valid(l) && Valid(r) && EnclosesAll(l, keys, seed1, left) && EnclosesAll(r, keys, seed2, right)
    {
      if i == seed1 || (i != seed2 && toLeft[i]) {
        ToLeft(left, right, order, seed1, seed2, i);
        l := SendTo(l, keys, seed1, left, i);
        left := left + [i];
      } else {
        ToRight(left, right, order, seed1, seed2, i);
        r := SendTo(r, keys, seed2, right, i);
        right := right + [i];
      }
    }
    AllHalves(left, right, order, seed1, seed2);
  }

  /** A half's box after one more; it encloses its seed already. */
  method SendTo(u: Box, keys: seq<Box>, seed: nat, ghost sent: seq<nat>, i: nat) returns (u': Box)
    requires Valid(u) && seed < |keys| && i < |keys| && (forall j :: j in sent ==> j < |keys|)
    requires (forall j :: 0 <= j < |keys| ==> Valid(keys[j])) && EnclosesAll(u, keys, seed, sent)
    ensures Valid(u') && EnclosesAll(u', keys, seed, sent + [i])
  {
    hide Encloses, EnclosesAll, Spans, Valid;
    u' := u;
    if i == seed {
      EnclosesSelf(u);
      SeedEnclosed(u, keys, seed, sent);
    } else {
      u' := UnionV0(u, keys[i], false);
      UnionEncloses(u', u, keys[i]);
    }
    EnclosesMore(u, u', keys, seed, sent, i);
  }

  // ----- comparisons -------------------------------------------------------

  /** Within the dimensions both have, a lies around b; what b has beyond is zero.
      Dimensions that only a has are not looked at. */
  predicate Contains(a: Box, b: Box)
    requires Valid(a) && Valid(b)
  {
    (forall i :: a.dim <= i < b.dim ==> Lo(b, i) == 0.0 && Hi(b, i) == 0.0) &&
    forall i :: 0 <= i < MinDim(a, b) ==> Lo(a, i) <= Lo(b, i) && Hi(b, i) <= Hi(a, i)
  }

  method ContainsV0(a: Box, b: Box) returns (r: bool)
    requires Valid(a) && Valid(b)
    ensures r <==> Contains(a, b)
  {
    if a.dim < b.dim {
      for i := a.dim to b.dim
        invariant forall k :: a.dim <= k < i ==> Lo(b, k) == 0.0 && Hi(b, k) == 0.0
      {
        if LL(b, i) != 0.0 || UR(b, i) != 0.0 {
          assert Lo(b, i) != 0.0 || Hi(b, i) != 0.0;
          return false;
        }
      }
    }
    for i := 0 to MinDim(a, b)
      invariant forall k :: 0 <= k < i ==> Lo(a, k) <= Lo(b, k) && Hi(b, k) <= Hi(a, k)
    {
      if Min(LL(a, i), UR(a, i)) > Min(LL(b, i), UR(b, i)) || Max(LL(a, i), UR(a, i)) < Max(LL(b, i), UR(b, i)) {
        assert !(Lo(a, i) <= Lo(b, i) && Hi(b, i) <= Hi(a, i));
        return false;
      }
    }
    return true;
  }

  /** The boxes have a point in common, in all dimensions either has. */
  predicate Overlap(a: Box, b: Box)
    requires Valid(a) && Valid(b)
  {
    forall i :: 0 <= i < MaxDim(a, b) ==> Lo(a, i) <= Hi(b, i) && Lo(b, i) <= Hi(a, i)
  }

  method OverlapV0(p: Box, q: Box) returns (r: bool)
    requires Valid(p) && Valid(q)
    ensures r <==> Overlap(p, q)
  {
    var a, b := p, q;
    if a.dim < b.dim {
      a, b := b, a;
    }
    for i := 0 to b.dim
      invariant forall k :: 0 <= k < i ==> Lo(a, k) <= Hi(b, k) && Lo(b, k) <= Hi(a, k)
    {
      if Min(LL(a, i), UR(a, i)) > Max(LL(b, i), UR(b, i)) || Max(LL(a, i), UR(a, i)) < Min(LL(b, i), UR(b, i)) {
        assert !(Lo(a, i) <= Hi(b, i) && Lo(b, i) <= Hi(a, i));
        return false;
      }
    }
    for i := b.dim to a.dim
      invariant forall k :: 0 <= k < i ==> Lo(a, k) <= Hi(b, k) && Lo(b, k) <= Hi(a, k)
    {
      if Min(LL(a, i), UR(a, i)) > 0.0 || Max(LL(a, i), UR(a, i)) < 0.0 {
        assert !(Lo(a, i) <= Hi(b, i) && Lo(b, i) <= Hi(a, i));
        return false;
      }
    }
    return true;
  }

  /** The boxes have the same dimensions and span the same. */
  predicate Same(a: Box, b: Box)
    requires Valid(a) && Valid(b)
  {
    a.dim == b.dim && forall i :: 0 <= i < a.dim ==> Lo(a, i) == Lo(b, i) && Hi(a, i) == Hi(b, i)
  }

  // ----- searches ----------------------------------------------------------

  datatype Strategy = Overlaps | IsSame | DoesContain | ContainedBy

  predicate LeafConsistent(key: Box, query: Box, s: Strategy)
    requires Valid(key) && Valid(query)
  {
    match s
    case Overlaps => Overlap(key, query)
    case IsSame => Same(key, query)
    case DoesContain => Contains(key, query)
    case ContainedBy => Contains(query, key)
  }

  predicate InternalConsistent(key: Box, query: Box, s: Strategy)
    requires Valid(key) && Valid(query)
  {
    match s
    case Overlaps => Overlap(key, query)
    case IsSame => Contains(key, query)
    case DoesContain => Contains(key, query)
    case ContainedBy => Overlap(key, query)
  }

  lemma OverlapsAbove(key: Box, c: Box, q: Box)
    requires Valid(key) && Valid(c) && Valid(q) && Around(key, c) && Overlap(c, q)
    ensures Overlap(key, q)
  {
    forall i | 0 <= i < MaxDim(key, q) ensures Lo(key, i) <= Hi(q, i) && Lo(q, i) <= Hi(key, i) {
      if i < key.dim { assert Lo(key, i) <= Lo(c, i) && Hi(c, i) <= Hi(key, i); }
      if i < MaxDim(c, q) { assert Lo(c, i) <= Hi(q, i) && Lo(q, i) <= Hi(c, i); }
    }
  }

  lemma ContainsAbove(key: Box, c: Box, q: Box)
    requires Valid(key) && Valid(c) && Valid(q) && Around(key, c) && Contains(c, q)
    ensures Contains(key, q)
  {
    forall i | 0 <= i < MinDim(key, q) ensures Lo(key, i) <= Lo(q, i) && Hi(q, i) <= Hi(key, i) {
      assert Lo(key, i) <= Lo(c, i) && Hi(c, i) <= Hi(key, i);
      if i >= c.dim { assert Lo(q, i) == 0.0 && Hi(q, i) == 0.0; }
    }
  }

  lemma SameContains(c: Box, q: Box)
    requires Valid(c) && Valid(q) && Same(c, q)
    ensures Contains(c, q)
  {
  }

  /** From dimension n on the query spans zero. */
  predicate SpansZero(q: Box, n: nat)
    requires Valid(q)
  {
    forall i :: n <= i < q.dim ==> Lo(q, i) <= 0.0 <= Hi(q, i)
  }

  lemma ContainedAbove(key: Box, c: Box, q: Box)
    requires Valid(key) && Valid(c) && Valid(q) && Around(key, c) && Contains(q, c) && SpansZero(q, c.dim)
    ensures Overlap(key, q)
  {
    forall i | 0 <= i < MaxDim(key, q) ensures Lo(key, i) <= Hi(q, i) && Lo(q, i) <= Hi(key, i) {
      if i < key.dim { assert Lo(key, i) <= Lo(c, i) && Hi(c, i) <= Hi(key, i); }
      if i < MinDim(q, c) {
        assert Lo(q, i) <= Lo(c, i) && Hi(c, i) <= Hi(q, i);
      } else if q.dim <= i < c.dim {
        assert Lo(c, i) == 0.0 && Hi(c, i) == 0.0;
      } else if c.dim <= i < q.dim {
        assert Lo(q, i) <= 0.0 <= Hi(q, i);
      }
    }
  }

  /** A box the query contains is reached from every node above it exactly when
      the query spans zero in the dimensions the box does not have; that is so
      for every query of no more dimensions than the box. */
  lemma ContainedByIff(c: Box, q: Box)
    requires Valid(c) && Valid(q) && Contains(q, c)
    ensures (forall key :: Valid(key) && Around(key, c) ==> Overlap(key, q)) <==> SpansZero(q, c.dim)
    ensures q.dim <= c.dim ==> SpansZero(q, c.dim)
  {
    if SpansZero(q, c.dim) {
      forall key | Valid(key) && Around(key, c) ensures Overlap(key, q) {
        ContainedAbove(key, c, q);
      }
    } else {
      var i :| c.dim <= i < q.dim && !(Lo(q, i) <= 0.0 <= Hi(q, i));
      AroundSelf(c);
      assert !(Lo(c, i) <= Hi(q, i) && Lo(q, i) <= Hi(c, i));
    }
  }

  /** A one-dimensional box that a two-dimensional query contains and whose own
      box, taken as a node's, turns the query away. */
  lemma ContainedByLost()
    ensures var c, q := Box(true, 1, [0.0]), Box(false, 2, [0.0, 5.0, 0.0, 6.0]);
      LeafConsistent(c, q, ContainedBy) && Around(c, c) && !InternalConsistent(c, q, ContainedBy)
  {
    var c, q := Box(true, 1, [0.0]), Box(false, 2, [0.0, 5.0, 0.0, 6.0]);
    assert Lo(q, 1) == 5.0;
    assert !(Lo(c, 1) <= Hi(q, 1) && Lo(q, 1) <= Hi(c, 1));
  }

  /** The searches that never turn away a node with an answer below. */
  predicate Sure(c: Box, q: Box, s: Strategy)
    requires Valid(c) && Valid(q)
  {
    s.ContainedBy? ==> SpansZero(q, c.dim)
  }

  lemma ConsistentAbove(key: Box, c: Box, q: Box, s: Strategy)
    requires Valid(key) && Valid(c) && Valid(q) && Around(key, c) && LeafConsistent(c, q, s) && Sure(c, q, s)
    ensures InternalConsistent(key, q, s)
  {
    hide Overlap, Contains, Same, Around, SpansZero;
    match s
    case Overlaps => OverlapsAbove(key, c, q);
    case IsSame => SameContains(c, q); ContainsAbove(key, c, q);
    case DoesContain => ContainsAbove(key, c, q);
    case ContainedBy => ContainedAbove(key, c, q);
  }

  datatype Tree = Leaf(c: Box) | Node(key: Box, children: seq<Tree>)

  predicate Below(t: Tree, c: Box) {
    match t
    case Leaf(d) => c == d
    case Node(_, children) => exists i :: 0 <= i < |children| && Below(children[i], c)
  }

  /** Every node's box lies around the boxes below it. */
  ghost predicate WellBuilt(t: Tree) {
    match t
    case Leaf(c) => Valid(c)
    case Node(key, children) =>
      && Valid(key) && (forall c :: Below(t, c) ==> Valid(c) && Around(key, c))
      && forall i :: 0 <= i < |children| ==> WellBuilt(children[i])
  }

  ghost predicate Found(t: Tree, q: Box, s: Strategy, c: Box)
    requires WellBuilt(t) && Valid(q)
  {
    match t
    case Leaf(d) => c == d && LeafConsistent(d, q, s)
    case Node(key, children) =>
      InternalConsistent(key, q, s) && exists i :: 0 <= i < |children| && Found(children[i], q, s, c)
  }

  /** A search returns only answers, and returns every answer but those boxes
      for which a contained-by query does not span zero where they end. */
  lemma {:induction false} SearchIsExact(t: Tree, q: Box, s: Strategy, c: Box)
    requires WellBuilt(t) && Valid(q) && Below(t, c) && Valid(c)
    ensures Found(t, q, s, c) ==> LeafConsistent(c, q, s)
    ensures LeafConsistent(c, q, s) && Sure(c, q, s) ==> Found(t, q, s, c)
  {
    hide LeafConsistent, InternalConsistent, Sure, Around;
    match t
    case Leaf(_) =>
    case Node(key, children) =>
      forall i | 0 <= i < |children| && Below(children[i], c)
        ensures Found(children[i], q, s, c) ==> LeafConsistent(c, q, s)
        ensures LeafConsistent(c, q, s) && Sure(c, q, s) ==> Found(children[i], q, s, c)
      {
        SearchIsExact(children[i], q, s, c);
      }
      forall i | 0 <= i < |children| && Found(children[i], q, s, c) ensures Below(children[i], c) {
        FoundIsBelow(children[i], q, s, c);
      }
      if LeafConsistent(c, q, s) && Sure(c, q, s) { ConsistentAbove(key, c, q, s); }
  }

  lemma {:induction false} FoundIsBelow(t: Tree, q: Box, s: Strategy, c: Box)
    requires WellBuilt(t) && Valid(q) && Found(t, q, s, c)
    ensures Below(t, c)
  {
    if t.Node? {
      var i :| 0 <= i < |t.children| && Found(t.children[i], q, s, c);
      FoundIsBelow(t.children[i], q, s, c);
    }
  }
}
