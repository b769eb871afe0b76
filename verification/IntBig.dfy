/** Index keys that are bit signatures of integer arrays. */
module IntBig {
  import opened IntQuery
  import opened IntSets
  import opened GistSplit
  import G = IntGist

  const SIGLENBIT: nat := 2016

  /** The bit of a value: it is taken as unsigned first. */
  function HashVal(v: int): (b: nat)
    ensures b < SIGLENBIT
  {
    v % 0x1_0000_0000 % SIGLENBIT
  }

  /** A full signature is kept as a mere flag. */
  datatype Key = AllTrue | Sign(bits: seq<bool>)

  predicate Valid(k: Key) {
    k.Sign? ==> |k.bits| == SIGLENBIT
  }

  predicate HasBit(k: Key, b: nat)
    requires Valid(k) && b < SIGLENBIT
  {
    k.AllTrue? || k.bits[b]
  }

  /** Every element of the row has its bit in the key. */
  predicate Covers(k: Key, row: set<int>)
    requires Valid(k)
  {
    forall v :: v in row ==> HasBit(k, HashVal(v))
  }

  /** The key is the row's own signature: no bit without an element. */
  predicate IsSignature(k: Key, row: set<int>)
    requires Valid(k)
  {
    k.Sign? && forall b :: 0 <= b < SIGLENBIT ==> (k.bits[b] <==> exists v :: v in row && HashVal(v) == b)
  }

  /** Sets the bits of an array's elements one after the other. */
  method Signature(arr: seq<int>) returns (bits: seq<bool>)
    ensures |bits| == SIGLENBIT && IsSignature(Sign(bits), Elems(arr))
  {
    var sign := new bool[SIGLENBIT](_ => false);
    for n := 0 to |arr|
      invariant forall b :: 0 <= b < SIGLENBIT ==> (sign[b] <==> exists i :: 0 <= i < n && HashVal(arr[i]) == b)
    {
      sign[HashVal(arr[n])] := true;
    }
    bits := sign[..];
    forall b | 0 <= b < SIGLENBIT ensures bits[b] <==> exists v :: v in Elems(arr) && HashVal(v) == b {
      HashedAt(arr, b);
    }
  }

  lemma HashedAt(arr: seq<int>, b: nat)
    ensures (exists i :: 0 <= i < |arr| && HashVal(arr[i]) == b) <==> exists v :: v in Elems(arr) && HashVal(v) == b
  {
    if i :| 0 <= i < |arr| && HashVal(arr[i]) == b { assert arr[i] in Elems(arr); }
    if v :| v in Elems(arr) && HashVal(v) == b {
      var i :| 0 <= i < |arr| && arr[i] == v;
      assert HashVal(arr[i]) == b;
    }
  }

  lemma SignatureCovers(k: Key, row: set<int>)
    requires Valid(k) && IsSignature(k, row)
    ensures Covers(k, row)
  {
  }

  /** Compression of an inner key: all bits set becomes the flag. */
  method CompressInner(k: Key) returns (r: Key)
    requires Valid(k)
    ensures Valid(r) && forall b :: 0 <= b < SIGLENBIT ==> (HasBit(r, b) <==> HasBit(k, b))
  {
    if k.AllTrue? {
      return k;
    }
    for i := 0 to SIGLENBIT
      invariant forall b :: 0 <= b < i ==> k.bits[b]
    {
      if !k.bits[i] {
        return k;
      }
    }
    return AllTrue;
  }

  /** The union of keys has the bits of all of them, and no other. */
  method UnionKeys(keys: seq<Key>) returns (r: Key)
    requires forall i :: 0 <= i < |keys| ==> Valid(keys[i])
    ensures Valid(r)
    ensures forall b :: 0 <= b < SIGLENBIT ==> (HasBit(r, b) <==> exists i :: 0 <= i < |keys| && HasBit(keys[i], b))
  {
    var base := new bool[SIGLENBIT](_ => false);
    for n := 0 to |keys|
      invariant forall b :: 0 <= b < SIGLENBIT ==> (base[b] <==> exists i :: 0 <= i < n && HasBit(keys[i], b))
    {
      if keys[n].AllTrue? {
        forall b | 0 <= b < SIGLENBIT ensures HasBit(keys[n], b) {
        }
        return AllTrue;
      }
      forall b | 0 <= b < SIGLENBIT {
        base[b] := base[b] || keys[n].bits[b];
      }
    }
    return Sign(base[..]);
  }

  lemma UnionCovers(keys: seq<Key>, r: Key, i: nat, row: set<int>)
    requires Valid(r) && i < |keys| && forall j :: 0 <= j < |keys| ==> Valid(keys[j])
    requires forall b :: 0 <= b < SIGLENBIT ==> (HasBit(r, b) <==> exists j :: 0 <= j < |keys| && HasBit(keys[j], b))
    requires Covers(keys[i], row)
    ensures Covers(r, row)
  {
    forall v | v in row ensures HasBit(r, HashVal(v)) {
      assert HasBit(keys[i], HashVal(v));
    }
  }

  /** u has the bits of the seed's key and of the keys sent to it, and no other. */
  predicate UnionOf(u: Key, keys: seq<Key>, seed: nat, sent: seq<nat>)
    requires Valid(u) && seed < |keys| && (forall i :: i in sent ==> i < |keys|)
    requires forall i :: 0 <= i < |keys| ==> Valid(keys[i])
  {
    forall b :: 0 <= b < SIGLENBIT ==> (HasBit(u, b) <==> HasBit(keys[seed], b) || exists i :: i in sent && HasBit(keys[i], b))
  }

  /** Adds a key's bits to a half's signature. A full signature with its flag off
      stays as it is. */
  method AddTo(u: Key, k: Key) returns (r: Key)
    requires Valid(u) && Valid(k)
    ensures Valid(r) && forall b :: 0 <= b < SIGLENBIT ==> (HasBit(r, b) <==> HasBit(u, b) || HasBit(k, b))
  {
    if u.AllTrue? || k.AllTrue? {
      if u.Sign? {
        return Sign(seq(SIGLENBIT, _ => true));
      }
      return u;
    }
    return Sign(seq(SIGLENBIT, b requires 0 <= b < SIGLENBIT => u.bits[b] || k.bits[b]));
  }

  lemma UnionGrows(u: Key, u': Key, keys: seq<Key>, seed: nat, sent: seq<nat>, i: nat)
    requires Valid(u) && Valid(u') && seed < |keys| && i < |keys| && (forall j :: j in sent ==> j < |keys|)
    requires (forall j :: 0 <= j < |keys| ==> Valid(keys[j])) && UnionOf(u, keys, seed, sent)
    requires forall b :: 0 <= b < SIGLENBIT ==> (HasBit(u', b) <==> HasBit(u, b) || HasBit(keys[i], b))
    ensures UnionOf(u', keys, seed, sent + [i])
  {
    hide HasBit;
    forall b | 0 <= b < SIGLENBIT
      ensures HasBit(u', b) <==> HasBit(keys[seed], b) || exists j :: j in sent + [i] && HasBit(keys[j], b)
    {
      if HasBit(keys[i], b) { assert i in sent + [i]; }
      if j :| j in sent && HasBit(keys[j], b) { assert j in sent + [i]; }
      if j :| j in sent + [i] && HasBit(keys[j], b) { assert j in sent || j == i; }
    }
  }

  /** The split of signature keys, whichever half each key is sent to. */
  method PickSplit(keys: seq<Key>, seed1: nat, seed2: nat, order: seq<nat>, toLeft: seq<bool>)
    returns (left: seq<nat>, right: seq<nat>, l: Key, r: Key)
    requires IsOrder(order, |keys|) && |toLeft| == |keys| && seed1 < |keys| && seed2 < |keys| && seed1 != seed2
    requires forall i :: 0 <= i < |keys| ==> Valid(keys[i])
    ensures Halves(left, right, order, seed1, seed2) && forall i :: i in left || i in right ==> i < |keys|
    ensures Valid(l) && Valid(r) && UnionOf(l, keys, seed1, left) && UnionOf(r, keys, seed2, right)
  {
    left, right, l, r := [], [], keys[seed1], keys[seed2];
    NoHalves(order, seed1, seed2);
    assert UnionOf(l, keys, seed1, left) && UnionOf(r, keys, seed2, right);
    hide HalvesTo, UnionOf, HasBit;
    for k := 0 to |keys|
      invariant HalvesTo(left, right, order, seed1, seed2, k)
      invariant forall i :: i in left || i in right ==> i < |keys|
      invariant Valid(l) && Valid(r) && UnionOf(l, keys, seed1, left) && UnionOf(r, keys, seed2, right)
    {
      var i := order[k];
      if i == seed1 {
        ToLeft(left, right, order, seed1, seed2, k);
        SeedIsThere(l, keys, seed1, left);
        UnionGrows(l, l, keys, seed1, left, i);
        left := left + [i];
      } else if i == seed2 {
        ToRight(left, right, order, seed1, seed2, k);
        SeedIsThere(r, keys, seed2, right);
        UnionGrows(r, r, keys, seed2, right, i);
        right := right + [i];
      } else if toLeft[k] {
        var union := AddTo(l, keys[i]);
        ToLeft(left, right, order, seed1, seed2, k);
        UnionGrows(l, union, keys, seed1, left, i);
        l, left := union, left + [i];
      } else {
        var union := AddTo(r, keys[i]);
        ToRight(left, right, order, seed1, seed2, k);
        UnionGrows(r, union, keys, seed2, right, i);
        r, right := union, right + [i];
      }
    }
    AllHalves(left, right, order, seed1, seed2);
  }

  lemma SeedIsThere(u: Key, keys: seq<Key>, seed: nat, sent: seq<nat>)
    requires Valid(u) && seed < |keys| && (forall i :: i in sent ==> i < |keys|)
    requires (forall i :: 0 <= i < |keys| ==> Valid(keys[i])) && UnionOf(u, keys, seed, sent)
    ensures forall b :: 0 <= b < SIGLENBIT && HasBit(keys[seed], b) ==> HasBit(u, b)
  {
  }

  // ----- searches ----------------------------------------------------------

  /** What the consistency function answers for a key. */
  ghost predicate Consistent(k: Key, s: G.Search, leaf: bool)
    requires Valid(k)
  {
    k.AllTrue? ||
    match s
    case Boolean(_, q) => EvalLossy(q, v => HasBit(k, HashVal(v)))
    case Overlap(a) => exists v :: v in Elems(a) && HasBit(k, HashVal(v))
    case Contains(a) => Covers(k, Elems(a))
    case Same(a) => if leaf then IsSignature(k, Elems(a)) else Covers(k, Elems(a))
    case ContainedBy(a) =>
      leaf ==> forall b :: 0 <= b < SIGLENBIT && k.bits[b] ==> exists v :: v in Elems(a) && HashVal(v) == b
  }

  method OverlapBits(k: Key, a: seq<int>) returns (r: bool)
    requires Valid(k)
    ensures r <==> exists v :: v in Elems(a) && HasBit(k, HashVal(v))
  {
    for n := 0 to |a|
      invariant forall i :: 0 <= i < n ==> !HasBit(k, HashVal(a[i]))
    {
      if HasBit(k, HashVal(a[n])) {
        assert a[n] in Elems(a);
        return true;
      }
    }
    return false;
  }

  method ContainsBits(k: Key, a: seq<int>) returns (r: bool)
    requires Valid(k)
    ensures r <==> Covers(k, Elems(a))
  {
    for n := 0 to |a|
      invariant forall i :: 0 <= i < n ==> HasBit(k, HashVal(a[i]))
    {
      if !HasBit(k, HashVal(a[n])) {
        assert a[n] in Elems(a);
        return false;
      }
    }
    return true;
  }

  /** Answers by strategy; None when evaluation leaves the items of the query. */
  method IntBigConsistent(k: Key, s: G.Search, leaf: bool) returns (r: Option<bool>)
    requires Valid(k) && G.ValidSearch(s)
    ensures k.Sign? && s.Boolean? ==> r == Execute(s.items, |s.items| - 1, false, RowCheck(v => HasBit(k, HashVal(v))))
    ensures k.AllTrue? || G.TrueLinks(s) ==> r == Some(Consistent(k, s, leaf))
  {
    if k.AllTrue? {
      return Some(true);
    }
    match s {
      case Boolean(items, q) =>
        var holds := (v: int) => HasBit(k, HashVal(v));
        if RightOperandsFit(q) {
          ExecuteMeansEval(items, |items| - 1, q, false, RowCheck(holds), holds);
          SameLossy(q, holds, v => HasBit(k, HashVal(v)));
        }
        r := Execute(items, |items| - 1, false, RowCheck(holds));
        ExecuteSame(items, |items| - 1, false, RowCheck(holds), RowCheck(v => HasBit(k, HashVal(v))));
      case _ =>
        var answer := BitsConsistent(k, s, leaf);
        return Some(answer);
    }
  }

  method BitsConsistent(k: Key, s: G.Search, leaf: bool) returns (r: bool)
    requires Valid(k) && k.Sign? && G.ValidSearch(s) && !s.Boolean?
    ensures r <==> Consistent(k, s, leaf)
  {
    match s {
      case Overlap(a) =>
        r := OverlapBits(k, a);
      case Contains(a) =>
        r := ContainsBits(k, a);
      case Same(a) =>
        if leaf {
          var qp := Signature(a);
          r := k.bits == qp;
          assert r ==> IsSignature(k, Elems(a));
          if IsSignature(k, Elems(a)) {
            assert forall b :: 0 <= b < SIGLENBIT ==> k.bits[b] == qp[b];
          }
        } else {
          r := ContainsBits(k, a);
        }
      case ContainedBy(a) =>
        if leaf {
          var qp := Signature(a);
          r := forall b :: 0 <= b < SIGLENBIT ==> (k.bits[b] ==> qp[b]);
        } else {
          r := true;
        }
    }
  }

  lemma {:induction false} SameLossy(q: Query, f: int -> bool, g: int -> bool)
    requires forall v :: f(v) == g(v)
    ensures EvalLossy(q, f) == EvalLossy(q, g)
  {
    match q
    case Val(v) =>
    case Not(a) =>
    case And(l, r) => SameLossy(l, f, g); SameLossy(r, f, g);
    case Or(l, r) => SameLossy(l, f, g); SameLossy(r, f, g);
  }

  /** No key above a matching row is turned away; at the leaf the key is the row's
      own signature. */
  lemma NeverPruned(k: Key, row: set<int>, s: G.Search, leaf: bool)
    requires Valid(k) && Covers(k, row) && (leaf ==> IsSignature(k, row)) && G.Matches(row, s)
    ensures Consistent(k, s, leaf)
  {
    if k.Sign? {
      match s {
        case Boolean(_, q) =>
          LossyKeepsAnswers(q, v => v in row, v => HasBit(k, HashVal(v)));
        case Overlap(a) =>
          var v := SomeElement(row * Elems(a));
          assert v in Elems(a) && HasBit(k, HashVal(v));
        case _ =>
      }
    }
  }

  datatype Tree = Leaf(row: seq<int>, key: Key) | Node(key: Key, kids: seq<Tree>)

  predicate Below(t: Tree, row: seq<int>) {
    match t
    case Leaf(r, _) => r == row
    case Node(_, kids) => exists i :: 0 <= i < |kids| && Below(kids[i], row)
  }

  ghost predicate WellBuilt(t: Tree) {
    Valid(t.key) &&
    match t
    case Leaf(row, key) => IsSignature(key, Elems(row))
    case Node(key, kids) =>
      (forall row :: Below(t, row) ==> Covers(key, Elems(row))) &&
      forall i :: 0 <= i < |kids| ==> WellBuilt(kids[i])
  }

  /** The search comes to the row through consistent keys. */
  ghost predicate Reached(t: Tree, s: G.Search, row: seq<int>)
    requires WellBuilt(t)
  {
    Consistent(t.key, s, t.Leaf?) &&
    match t
    case Leaf(r, _) => r == row
    case Node(_, kids) => exists i :: 0 <= i < |kids| && Reached(kids[i], s, row)
  }

  /** After the recheck of the rows reached, a search has exactly the matching
      rows. */
  lemma {:induction false} RecheckIsExact(t: Tree, s: G.Search, row: seq<int>)
    requires WellBuilt(t)
    ensures Reached(t, s, row) && G.Matches(Elems(row), s) <==> Below(t, row) && G.Matches(Elems(row), s)
  {
    hide Consistent, Covers, IsSignature;
    match t {
      case Leaf(r, key) =>
        if r == row && G.Matches(Elems(row), s) {
          SignatureCovers(key, Elems(row));
          NeverPruned(key, Elems(row), s, true);
        }
      case Node(key, kids) =>
        forall i | 0 <= i < |kids|
          ensures Reached(kids[i], s, row) && G.Matches(Elems(row), s) <==> Below(kids[i], row) && G.Matches(Elems(row), s)
        {
          RecheckIsExact(kids[i], s, row);
        }
        if Below(t, row) && G.Matches(Elems(row), s) { NeverPruned(key, Elems(row), s, false); }
    }
  }
}
