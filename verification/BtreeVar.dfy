/** GiST keys for byte strings: bounds cut short to the common prefix and two
    bytes more, and searches that make up for the cut by matching prefixes. */
module BtreeVar {
  import opened ByteOrder

  datatype Key = Key(lower: Bytes, upper: Bytes)

  function LeafKey(v: Bytes): Key {
    Key(v, v)
  }

  /** Length of the common prefix of the two bounds. */
  method NodeCpLen(key: Key) returns (n: nat)
    ensures n == CommonLength(key.lower, key.upper)
  {
    var ml := if |key.lower| < |key.upper| then |key.lower| else |key.upper|;
    if ml == 0 {
      return 0;
    }
    var i := 0;
    while i < ml
      invariant i <= ml
      invariant CommonLength(key.lower, key.upper) == i + CommonLength(key.lower[i..], key.upper[i..])
    {
      if key.lower[i] != key.upper[i] {
        return i;
      }
      assert key.lower[i..][1..] == key.lower[i + 1..] && key.upper[i..][1..] == key.upper[i + 1..];
      i := i + 1;
    }
    return ml;
  }

  /** Extends a key by another's bounds. */
  function BinUnion(u: Key, e: Key): Key {
    Key(if Compare(u.lower, e.lower) > 0 then e.lower else u.lower,
        if Compare(u.upper, e.upper) < 0 then e.upper else u.upper)
  }

  /** Cuts both bounds to the given prefix length and one byte more. */
  function Truncate(key: Key, cpfLength: nat): Key {
    Key(Cut(key.lower, cpfLength + 1), Cut(key.upper, cpfLength + 1))
  }

  function Cp(key: Key): nat {
    CommonLength(key.lower, key.upper)
  }

  function Fold(keys: seq<Key>, n: nat): Key
    requires 0 < n <= |keys|
  {
    if n == 1 then keys[0] else BinUnion(Fold(keys, n - 1), keys[n - 1])
  }

  function Union(keys: seq<Key>): Key
    requires keys != []
  {
    var out := Fold(keys, |keys|);
    Truncate(out, Cp(out) + 1)
  }

  method VarUnion(keys: seq<Key>) returns (key: Key)
    requires keys != []
    ensures key == Union(keys)
  {
    var out := keys[0];
    for i := 1 to |keys|
      invariant out == Fold(keys, i)
    {
      var lower, upper := out.lower, out.upper;
      if Compare(out.lower, keys[i].lower) > 0 {
        lower := keys[i].lower;
      }
      if Compare(out.upper, keys[i].upper) < 0 {
        upper := keys[i].upper;
      }
      out := Key(lower, upper);
    }
    var plen := NodeCpLen(out);
    key := Truncate(out, plen + 1);
  }

  // ----- what a key promises about the values below it ----------------------------

  predicate Ordered(key: Key) {
    Le(key.lower, key.upper)
  }

  /** The first bytes of the upper bound, two past the common prefix. */
  function Stem(key: Key): Bytes {
    Cut(key.upper, Cp(key) + 2)
  }

  /** v is not below the lower bound, and is not above the upper one unless it
      starts with the upper bound's stem of full length. */
  predicate Covers(key: Key, v: Bytes) {
    Le(key.lower, v) && (Le(v, key.upper) || (|key.upper| >= Cp(key) + 2 && Prefix(Stem(key), v)))
  }

  lemma LeafCovers(v: Bytes)
    ensures Ordered(LeafKey(v)) && Covers(LeafKey(v), v)
  {
    CompareOrder(v, v, v);
  }

  /** A value beyond a grown upper bound still starts with the new stem. */
  lemma StemShrinks(l: Bytes, u: Bytes, lo: Bytes, up: Bytes, v: Bytes)
    requires Le(lo, l) && Le(l, u) && Le(u, up) && Le(up, v)
    requires |u| >= CommonLength(l, u) + 2 && Prefix(Stem(Key(l, u)), v)
    ensures |up| >= CommonLength(lo, up) + 2 && Prefix(Stem(Key(lo, up)), v)
  {
    hide CommonLength, Le;
    var c, w := CommonLength(l, u), Stem(Key(l, u));
    CutPrefix(u, c + 2);
    PrefixLe(w, u);
    LeTrans(w, u, up);
    Between(w, up, v);
    NoLonger(l, u, lo, up);
    var c' := CommonLength(lo, up);
    assert Stem(Key(lo, up)) == w[..c' + 2];
    PrefixTrans(Stem(Key(lo, up)), w, v);
  }

  lemma NoLonger(l: Bytes, u: Bytes, lo: Bytes, up: Bytes)
    requires Le(lo, l) && Le(l, u) && |u| >= CommonLength(l, u) + 2 && Prefix(Cut(u, CommonLength(l, u) + 2), up)
    ensures CommonLength(lo, up) <= CommonLength(l, u)
  {
    var c := CommonLength(l, u);
    if CommonLength(lo, up) >= c + 1 {
      var p := u[..c + 1];
      assert up[..c + 1] == up[..c + 2][..c + 1] == p;
      CommonSym(lo, up);
      CommonIsPrefix(up, lo, c + 1);
      PrefixLe(p, lo);
      LeTrans(p, lo, l);
      assert Prefix(p, u);
      Between(p, l, u);
      CommonSym(l, u);
      CommonIsPrefix(u, l, c + 1);
    }
  }

  /** A key widened at both ends covers what it covered. */
  lemma Widened(key: Key, wider: Key, v: Bytes)
    requires Ordered(key) && Covers(key, v) && Le(wider.lower, key.lower) && Le(key.upper, wider.upper)
    ensures Covers(wider, v)
  {
    LeTrans(wider.lower, key.lower, v);
    LeTotal(v, wider.upper);
    if Le(v, key.upper) {
      LeTrans(v, key.upper, wider.upper);
    } else if !Le(v, wider.upper) {
      StemShrinks(key.lower, key.upper, wider.lower, wider.upper, v);
    }
  }

  lemma UnionWidens(u: Key, e: Key)
    ensures var r := BinUnion(u, e);
      Le(r.lower, u.lower) && Le(r.lower, e.lower) && Le(u.upper, r.upper) && Le(e.upper, r.upper)
    ensures Ordered(u) && Ordered(e) ==> Ordered(BinUnion(u, e))
  {
    CompareOrder(u.lower, e.lower, u.lower);
    CompareOrder(u.upper, e.upper, u.upper);
    CompareOrder(u.lower, u.lower, u.lower);
    CompareOrder(e.lower, e.lower, e.lower);
    CompareOrder(u.upper, u.upper, u.upper);
    CompareOrder(e.upper, e.upper, e.upper);
    var r := BinUnion(u, e);
    if Ordered(u) && Ordered(e) {
      LeTrans(r.lower, u.lower, u.upper);
      LeTrans(r.lower, u.upper, r.upper);
    }
  }

  /** Every key is within the fold of the keys. */
  lemma {:induction false} FoldWidens(keys: seq<Key>, n: nat, i: nat)
    requires i < n <= |keys| && forall k :: 0 <= k < |keys| ==> Ordered(keys[k])
    ensures Ordered(Fold(keys, n))
    ensures Le(Fold(keys, n).lower, keys[i].lower) && Le(keys[i].upper, Fold(keys, n).upper)
  {
    CompareOrder(keys[i].lower, keys[i].lower, keys[i].lower);
    CompareOrder(keys[i].upper, keys[i].upper, keys[i].upper);
    if n > 1 {
      FoldWidens(keys, n - 1, if i < n - 1 then i else 0);
      var u := Fold(keys, n - 1);
      UnionWidens(u, keys[n - 1]);
      if i < n - 1 {
        LeTrans(Fold(keys, n).lower, u.lower, keys[i].lower);
        LeTrans(keys[i].upper, u.upper, Fold(keys, n).upper);
      }
    }
  }

  /** Cutting two past the common prefix leaves the common prefix. */
  lemma TruncateFacts(key: Key)
    requires Ordered(key)
    ensures var t := Truncate(key, Cp(key) + 1);
      Ordered(t) && Cp(t) == Cp(key) && t.upper == Stem(key) && Stem(t) == t.upper && Le(t.lower, key.lower)
  {
    CutLe(key.lower, key.upper, Cp(key) + 2);
    CommonCut(key.lower, key.upper, Cp(key) + 2);
    CutPrefix(key.lower, Cp(key) + 2);
    PrefixLe(Cut(key.lower, Cp(key) + 2), key.lower);
  }

  lemma TruncateCovers(key: Key, v: Bytes)
    requires Ordered(key) && Covers(key, v)
    ensures Covers(Truncate(key, Cp(key) + 1), v)
  {
    TruncateFacts(key);
    var t := Truncate(key, Cp(key) + 1);
    LeTrans(t.lower, key.lower, v);
    CutPrefix(key.upper, Cp(key) + 2);
    LeTotal(v, t.upper);
    assert |key.upper| <= Cp(key) + 2 ==> t.upper == key.upper;
    if Le(v, key.upper) && !Le(v, t.upper) {
      Between(t.upper, v, key.upper);
    }
  }

  // ----- trees ----------------------------------------------------------------------

  /** How a key came about: from a value, or as the union of other keys. */
  datatype Origin = Value(v: Bytes) | United(parts: seq<Origin>)

  predicate NonEmpty(o: Origin) {
    o.United? ==> o.parts != [] && forall p :: p in o.parts ==> NonEmpty(p)
  }

  function KeyOf(o: Origin): Key
    requires NonEmpty(o)
  {
    match o
    case Value(v) => LeafKey(v)
    case United(parts) => Union(Keys(parts))
  }

  function Keys(parts: seq<Origin>): (r: seq<Key>)
    requires forall p :: p in parts ==> NonEmpty(p)
    ensures |r| == |parts| && forall i :: 0 <= i < |parts| ==> r[i] == KeyOf(parts[i])
  {
    if parts == [] then [] else [KeyOf(parts[0])] + Keys(parts[1..])
  }

  /** v went into the key. */
  predicate Holds(o: Origin, v: Bytes) {
    match o
    case Value(w) => v == w
    case United(parts) => exists i :: 0 <= i < |parts| && Holds(parts[i], v)
  }

  lemma {:induction false} KeyOrdered(o: Origin)
    requires NonEmpty(o)
    ensures Ordered(KeyOf(o))
  {
    match o
    case Value(v) => LeafCovers(v);
    case United(parts) =>
      var keys := Keys(parts);
      forall i | 0 <= i < |keys| ensures Ordered(keys[i]) {
        KeyOrdered(parts[i]);
      }
      FoldWidens(keys, |keys|, 0);
      TruncateFacts(Fold(keys, |keys|));
  }

  /** Whatever unions and truncations made it, a key covers every value in it. */
  lemma {:induction false} KeyCovers(o: Origin, v: Bytes)
    requires NonEmpty(o) && Holds(o, v)
    ensures Covers(KeyOf(o), v)
  {
    match o
    case Value(_) => LeafCovers(v);
    case United(parts) =>
      var keys := Keys(parts);
      var i :| 0 <= i < |parts| && Holds(parts[i], v);
      KeyCovers(parts[i], v);
      hide Covers, Union, Ordered;
      forall k | 0 <= k < |keys| ensures Ordered(keys[k]) {
        KeyOrdered(parts[k]);
      }
      UnionCovers(keys, i, v);
  }

  /** A union covers what any of its keys covers. */
  lemma UnionCovers(keys: seq<Key>, i: nat, v: Bytes)
    requires i < |keys| && Covers(keys[i], v) && forall k :: 0 <= k < |keys| ==> Ordered(keys[k])
    ensures Covers(Union(keys), v)
  {
    hide Covers, Cp, Truncate, Fold, Le;
    FoldWidens(keys, |keys|, i);
    Widened(keys[i], Fold(keys, |keys|), v);
    TruncateCovers(Fold(keys, |keys|), v);
  }

  /** Keys of united origins are cut: their stem is their whole upper bound. */
  lemma UnionIsCut(o: Origin)
    requires NonEmpty(o) && o.United?
    ensures Stem(KeyOf(o)) == KeyOf(o).upper
  {
    var keys := Keys(o.parts);
    forall i | 0 <= i < |keys| ensures Ordered(keys[i]) {
      KeyOrdered(o.parts[i]);
    }
    FoldWidens(keys, |keys|, 0);
    TruncateFacts(Fold(keys, |keys|));
  }

  // ----- searches -------------------------------------------------------------------

  datatype Strategy = LessEqual | Less | Equal | Greater | GreaterEqual | NotEqual

  /** What the operator says of a value. */
  predicate Satisfies(v: Bytes, q: Bytes, s: Strategy) {
    match s
    case LessEqual => Compare(v, q) <= 0
    case Less => Compare(v, q) < 0
    case Equal => v == q
    case Greater => Compare(v, q) > 0
    case GreaterEqual => Compare(v, q) >= 0
    case NotEqual => v != q
  }

  predicate PfMatch(key: Key, q: Bytes) {
    Prefix(key.lower, q) || Prefix(key.upper, q)
  }

  predicate Consistent(key: Key, q: Bytes, s: Strategy, isLeaf: bool) {
    match s
    case LessEqual => if isLeaf then Compare(q, key.lower) >= 0 else Compare(q, key.lower) >= 0 || PfMatch(key, q)
    case Less => if isLeaf then Compare(q, key.lower) > 0 else Compare(q, key.lower) >= 0 || PfMatch(key, q)
    case Equal =>
      if isLeaf then q == key.lower
      else (Compare(key.lower, q) <= 0 && Compare(q, key.upper) <= 0) || PfMatch(key, q)
    case Greater => if isLeaf then Compare(q, key.upper) < 0 else Compare(q, key.upper) <= 0 || PfMatch(key, q)
    case GreaterEqual => if isLeaf then Compare(q, key.upper) <= 0 else Compare(q, key.upper) <= 0 || PfMatch(key, q)
    case NotEqual => !(q == key.lower && q == key.upper)
  }

  /** On a leaf the answer is the operator's. */
  lemma LeafIsExact(v: Bytes, q: Bytes, s: Strategy)
    ensures Consistent(LeafKey(v), q, s, true) <==> Satisfies(v, q, s)
  {
    CompareOrder(v, q, v);
  }

  lemma NotPastUpper(key: Key, q: Bytes, v: Bytes)
    requires Covers(key, v) && Stem(key) == key.upper && Le(q, v)
    ensures Le(q, key.upper) || PfMatch(key, q)
  {
    LeTotal(q, key.upper);
    if Le(v, key.upper) {
      LeTrans(q, v, key.upper);
    } else if Le(key.upper, q) {
      Between(key.upper, q, v);
    }
  }

  /** No strategy turns away a key with a satisfying value below it. */
  lemma NeverPruned(key: Key, q: Bytes, s: Strategy, v: Bytes)
    requires Covers(key, v) && Stem(key) == key.upper && Satisfies(v, q, s)
    ensures Consistent(key, q, s, false)
  {
    CompareOrder(v, q, v);
    CompareOrder(q, key.lower, q);
    if s.LessEqual? || s.Less? {
      LeTrans(key.lower, v, q);
    } else if s.NotEqual? {
      if q == key.lower == key.upper { SameBounds(key, v); }
    } else {
      NotPastUpper(key, q, v);
    }
  }

  lemma SameBounds(key: Key, v: Bytes)
    requires Covers(key, v) && key.lower == key.upper
    ensures v == key.lower
  {
    CommonIsPrefix(key.lower, key.upper, |key.lower|);
    assert Prefix(key.lower[..|key.lower|], key.upper);
    LeTotal(key.lower, v);
  }

  /** An index: each inner node's key came about from at least the values below. */
  datatype Tree = Leaf(v: Bytes) | Node(origin: Origin, children: seq<Tree>)

  predicate Below(t: Tree, v: Bytes) {
    match t
    case Leaf(w) => v == w
    case Node(_, children) => exists i :: 0 <= i < |children| && Below(children[i], v)
  }

  ghost predicate WellBuilt(t: Tree) {
    match t
    case Leaf(_) => true
    case Node(origin, children) =>
      && origin.United? && NonEmpty(origin) && (forall v :: Below(t, v) ==> Holds(origin, v))
      && forall i :: 0 <= i < |children| ==> WellBuilt(children[i])
  }

  /** v is reached by descending into consistent children only. */
  ghost predicate Found(t: Tree, q: Bytes, s: Strategy, v: Bytes)
    requires WellBuilt(t)
  {
    match t
    case Leaf(w) => v == w && Consistent(LeafKey(w), q, s, true)
    case Node(origin, children) =>
      Consistent(KeyOf(origin), q, s, false) &&
      exists i :: 0 <= i < |children| && Found(children[i], q, s, v)
  }

  /** A search finds exactly the values below that satisfy it. */
  lemma {:induction false} SearchIsExact(t: Tree, q: Bytes, s: Strategy, v: Bytes)
    requires WellBuilt(t)
    ensures Found(t, q, s, v) <==> Below(t, v) && Satisfies(v, q, s)
  {
    match t
    case Leaf(w) => LeafIsExact(w, q, s);
    case Node(origin, children) =>
      forall i | 0 <= i < |children|
        ensures Found(children[i], q, s, v) <==> Below(children[i], v) && Satisfies(v, q, s)
      {
        SearchIsExact(children[i], q, s, v);
      }
      if Below(t, v) && Satisfies(v, q, s) {
        KeyCovers(origin, v);
        UnionIsCut(origin);
        NeverPruned(KeyOf(origin), q, s, v);
      }
  }

  // ----- page splits ----------------------------------------------------------------

  /** A split cuts both halves' keys by the longer of their common prefixes. */
  function SplitKeys(left: seq<Key>, right: seq<Key>): (Key, Key)
    requires left != [] && right != []
  {
    var l, r := Fold(left, |left|), Fold(right, |right|);
    var ll := (if Cp(l) > Cp(r) then Cp(l) else Cp(r)) + 1;
    (Truncate(l, ll), Truncate(r, ll))
  }

  /** Halves the sorted keys of a page. */
  function PickSplit(keys: seq<Key>): (Key, Key)
    requires |keys| >= 2
  {
    SplitKeys(keys[..|keys| / 2], keys[|keys| / 2..])
  }

  method VarPickSplit(keys: seq<Key>) returns (l: Key, r: Key)
    requires |keys| >= 2
    ensures (l, r) == PickSplit(keys)
  {
    var h := |keys| / 2;
    ghost var left, right := keys[..h], keys[h..];
    l, r := keys[0], keys[h];
    for i := 1 to h
      invariant l == Fold(left, i)
    {
      l := BinUnion(l, keys[i]);
    }
    for i := h + 1 to |keys|
      invariant r == Fold(right, i - h)
    {
      r := BinUnion(r, keys[i]);
    }
    var ll := NodeCpLen(l);
    var lr := NodeCpLen(r);
    ll := (if ll > lr then ll else lr) + 1;
    l, r := Truncate(l, ll), Truncate(r, ll);
  }

  /** No search is turned away from t for a value that one of the keys covers. */
  ghost predicate KeepsAll(keys: seq<Key>, t: Key) {
    forall j, v, q, s :: 0 <= j < |keys| && Covers(keys[j], v) && Satisfies(v, q, s) ==> Consistent(t, q, s, false)
  }

  /** The keys have a cut one whose upper bound goes on in theirs, within the first
      n bytes, with a byte that is not the largest. */
  predicate CutShort(keys: seq<Key>, upper: Bytes, n: nat) {
    exists j, i :: 0 <= j < |keys| && Cp(keys[j]) + 2 <= i < n && GoesOn(keys[j], upper, i)
  }

  predicate GoesOn(key: Key, upper: Bytes, i: nat) {
    |key.upper| >= Cp(key) + 2 && Prefix(Stem(key), upper) && i < |upper| && upper[i] < 255
  }

  /** A value within the cut bounds, or starting with one of them, is found. */
  lemma WithinReach(key: Key, t: Key, v: Bytes, q: Bytes, s: Strategy)
    requires Covers(key, v) && Satisfies(v, q, s) && (t.lower == t.upper ==> key.lower == key.upper == t.lower)
    requires Le(t.lower, t.upper) && Le(t.lower, v) && (Le(v, t.upper) || Prefix(t.upper, v) || Prefix(t.lower, v))
    ensures Consistent(t, q, s, false)
  {
    CompareOrder(v, q, v);
    CompareOrder(q, t.lower, q);
    if s.LessEqual? || s.Less? {
      LeTrans(t.lower, v, q);
    } else if s.NotEqual? {
      if q == t.lower == t.upper { SameBounds(key, v); }
    } else if !Le(q, t.upper) {
      LeTotal(q, t.upper);
      BeyondUpper(t, v, q);
    }
  }

  lemma BeyondUpper(t: Key, v: Bytes, q: Bytes)
    requires Le(t.lower, t.upper) && Le(t.upper, q) && Le(q, v) && !Le(q, t.upper)
    requires Le(v, t.upper) || Prefix(t.upper, v) || Prefix(t.lower, v)
    ensures PfMatch(t, q)
  {
    if Le(v, t.upper) {
      LeTrans(q, v, t.upper);
    } else if Prefix(t.upper, v) {
      Between(t.upper, q, v);
    } else {
      LeTrans(t.lower, t.upper, q);
      Between(t.lower, q, v);
    }
  }

  /** The longer cut of a key around another: its bounds and where it is equal. */
  lemma LongerCut(key: Key, k: nat)
    requires Ordered(key) && k >= Cp(key)
    ensures var t := Truncate(key, k + 1);
      && Le(t.lower, key.lower) && Le(t.lower, t.upper) && Le(t.upper, key.upper)
      && (t.lower == t.upper ==> key.lower == key.upper == t.lower)
  {
    var t := Truncate(key, k + 1);
    CutPrefix(key.lower, k + 2);
    PrefixLe(t.lower, key.lower);
    CutPrefix(key.upper, k + 2);
    PrefixLe(t.upper, key.upper);
    CutLe(key.lower, key.upper, k + 2);
    CommonCut(key.lower, key.upper, k + 2);
    if t.lower == t.upper { SelfCommon(t.lower); }
  }

  /** A value above all the keys that one of them covers starts as the largest upper
      bound does. */
  lemma StartsAlike(key: Key, fold: Key, v: Bytes)
    requires Ordered(key) && Covers(key, v) && Le(fold.lower, key.lower) && Le(key.upper, fold.upper)
    requires !Le(v, fold.upper)
    ensures |key.upper| >= Cp(key) + 2 && Prefix(Stem(key), v) && Prefix(Stem(key), fold.upper)
    ensures Cp(fold) <= Cp(key)
  {
    LeTotal(v, fold.upper);
    if Le(v, key.upper) { LeTrans(v, key.upper, fold.upper); }
    CutPrefix(key.upper, Cp(key) + 2);
    PrefixLe(Stem(key), key.upper);
    LeTrans(Stem(key), key.upper, fold.upper);
    Between(Stem(key), fold.upper, v);
    NoLonger(key.lower, key.upper, fold.lower, fold.upper);
  }

  lemma LowerStarts(key: Key, fold: Key, v: Bytes)
    requires |fold.lower| == Cp(fold) <= Cp(key) && |key.upper| >= Cp(key) + 2
    requires Prefix(Stem(key), v) && Prefix(Stem(key), fold.upper)
    ensures Prefix(fold.lower, v)
  {
    CommonIsPrefix(fold.lower, fold.upper, |fold.lower|);
    assert fold.lower[..|fold.lower|] == fold.lower;
    var n := |fold.lower|;
    assert v[..n] == Stem(key)[..n] == fold.upper[..n];
  }

  lemma UpperStarts(key: Key, fold: Key, k: nat, v: Bytes)
    requires |key.upper| >= Cp(key) + 2 && Prefix(Stem(key), v) && Prefix(Stem(key), fold.upper) && Le(fold.upper, v)
    requires forall i :: Cp(key) + 2 <= i < k + 2 ==> !GoesOn(key, fold.upper, i)
    ensures Prefix(Cut(fold.upper, k + 2), v)
  {
    var u, n, m := fold.upper, Cp(key) + 2, |Cut(fold.upper, k + 2)|;
    assert u[..n] == Stem(key) && Cut(u, k + 2) == u[..m];
    if m <= n {
      assert v[..m] == Stem(key)[..m] == u[..m];
    } else {
      forall i | n <= i < m ensures u[i] == 255 {
        assert !GoesOn(key, u, i);
      }
      LargestBytes(u, v, n, m);
    }
  }

  /** Nothing is lost when no cut key goes on or the lower bound starts the upper one. */
  lemma Kept(keys: seq<Key>, k: nat, j: nat, v: Bytes, q: Bytes, s: Strategy)
    requires keys != [] && forall i :: 0 <= i < |keys| ==> Ordered(keys[i])
    requires j < |keys| && Covers(keys[j], v) && Satisfies(v, q, s)
    requires var fold := Fold(keys, |keys|);
      k >= Cp(fold) && (|fold.lower| == Cp(fold) || !CutShort(keys, fold.upper, k + 2))
    ensures Consistent(Truncate(Fold(keys, |keys|), k + 1), q, s, false)
  {
    var key, fold := keys[j], Fold(keys, |keys|);
    var t := Truncate(fold, k + 1);
    hide Fold, Consistent, Satisfies;
    FoldWidens(keys, |keys|, j);
    LongerCut(fold, k);
    LeTrans(t.lower, fold.lower, key.lower);
    LeTrans(t.lower, key.lower, v);
    LeTotal(v, fold.upper);
    if Le(v, fold.upper) {
      LeTotal(v, t.upper);
      CutPrefix(fold.upper, k + 2);
      if !Le(v, t.upper) { Between(t.upper, v, fold.upper); }
    } else {
      StartsAlike(key, fold, v);
      if |fold.lower| == Cp(fold) { LowerStarts(key, fold, v); } else { UpperStarts(key, fold, k, v); }
    }
    if t.lower == t.upper {
      LeTrans(fold.lower, key.lower, key.upper);
      LeTrans(key.lower, key.upper, fold.upper);
      LeTotal(key.lower, fold.lower);
      LeTotal(key.upper, fold.upper);
    }
    WithinReach(key, t, v, q, s);
  }

  /** The value just above where a cut key goes on is covered by it and not found. */
  lemma Lost(keys: seq<Key>, k: nat, j: nat, i: nat) returns (v: Bytes)
    requires keys != [] && forall i :: 0 <= i < |keys| ==> Ordered(keys[i])
    requires var fold := Fold(keys, |keys|);
      k >= Cp(fold) && |fold.lower| > Cp(fold) &&
      j < |keys| && Cp(keys[j]) + 2 <= i < k + 2 && GoesOn(keys[j], fold.upper, i)
    ensures Covers(keys[j], v) && Satisfies(v, v, Equal)
    ensures !Consistent(Truncate(Fold(keys, |keys|), k + 1), v, Equal, false)
  {
    var key, fold := keys[j], Fold(keys, |keys|);
    var t, u := Truncate(fold, k + 1), fold.upper;
    v := u[..i] + [u[i] + 1];
    hide Fold;
    FoldWidens(keys, |keys|, j);
    NoLonger(key.lower, key.upper, fold.lower, fold.upper);
    LargerByte(u, v, i);
    LeTrans(key.lower, key.upper, u);
    LeTrans(key.lower, u, v);
    assert v[..|Stem(key)|] == u[..|Stem(key)|];
    assert t.upper[..i] == u[..i] == v[..i];
    LargerByte(t.upper, v, i);
    CompareOrder(t.upper, v, t.upper);
    LowerDiffers(fold, t.lower, v);
  }

  lemma LowerDiffers(fold: Key, lower: Bytes, v: Bytes)
    requires |lower| > Cp(fold) && Prefix(lower, fold.lower) && |fold.upper| > Cp(fold)
    requires |v| > Cp(fold) && v[..Cp(fold) + 1] == fold.upper[..Cp(fold) + 1]
    ensures !Prefix(lower, v)
  {
    var n := Cp(fold) + 1;
    CommonIsPrefix(fold.lower, fold.upper, n);
    assert lower[..n] == fold.lower[..n] != fold.upper[..n];
    PrefixCut(lower, v, n);
  }

  lemma PrefixCut(a: Bytes, b: Bytes, n: nat)
    requires n <= |a|
    ensures Prefix(a, b) ==> n <= |b| && a[..n] == b[..n]
  {
  }

  /** The keys of one half, cut by the prefix of either half, keep every value they
      cover within reach of every search if and only if their lowest bound is a prefix
      of their highest, or no cut key goes on within the cut. */
  lemma KeepsIff(keys: seq<Key>, k: nat)
    requires keys != [] && forall i :: 0 <= i < |keys| ==> Ordered(keys[i])
    requires k >= Cp(Fold(keys, |keys|))
    ensures var fold := Fold(keys, |keys|);
      KeepsAll(keys, Truncate(fold, k + 1)) <==> |fold.lower| == Cp(fold) || !CutShort(keys, fold.upper, k + 2)
  {
    var fold := Fold(keys, |keys|);
    var t := Truncate(fold, k + 1);
    hide Fold, Truncate, Covers, Satisfies, Consistent, GoesOn, Cp;
    if |fold.lower| == Cp(fold) || !CutShort(keys, fold.upper, k + 2) {
      forall j, v, q, s | 0 <= j < |keys| && Covers(keys[j], v) && Satisfies(v, q, s) ensures Consistent(t, q, s, false) {
        Kept(keys, k, j, v, q, s);
      }
    } else {
      var j, i :| 0 <= j < |keys| && Cp(keys[j]) + 2 <= i < k + 2 && GoesOn(keys[j], fold.upper, i);
      var v := Lost(keys, k, j, i);
    }
  }

  /** A page split loses a value that one of its keys covers if and only if, in one
      of its halves, a cut key goes on within the longer of the two cuts. */
  lemma SplitKeepsIff(keys: seq<Key>)
    requires |keys| >= 2 && forall i :: 0 <= i < |keys| ==> Ordered(keys[i])
    ensures var left, right := keys[..|keys| / 2], keys[|keys| / 2..];
      var l, r := Fold(left, |left|), Fold(right, |right|);
      var k := if Cp(l) > Cp(r) then Cp(l) else Cp(r);
      && (KeepsAll(left, PickSplit(keys).0) <==> |l.lower| == Cp(l) || !CutShort(left, l.upper, k + 2))
      && (KeepsAll(right, PickSplit(keys).1) <==> |r.lower| == Cp(r) || !CutShort(right, r.upper, k + 2))
  {
    hide Fold, KeepsAll, CutShort, Cp, Ordered, Truncate;
    var left, right := keys[..|keys| / 2], keys[|keys| / 2..];
    var l, r := Fold(left, |left|), Fold(right, |right|);
    var k := if Cp(l) > Cp(r) then Cp(l) else Cp(r);
    KeepsIff(left, k);
    KeepsIff(right, k);
  }

  /** So the split of a leaf page loses nothing. */
  lemma LeafSplitKeeps(values: seq<Bytes>)
    requires |values| >= 2
    ensures var keys := seq(|values|, i requires 0 <= i < |values| => LeafKey(values[i]));
      KeepsAll(keys[..|keys| / 2], PickSplit(keys).0) && KeepsAll(keys[|keys| / 2..], PickSplit(keys).1)
  {
    var keys := seq(|values|, i requires 0 <= i < |values| => LeafKey(values[i]));
    forall i | 0 <= i < |keys| ensures Ordered(keys[i]) && Cp(keys[i]) == |keys[i].upper| {
      LeafCovers(values[i]);
      SelfCommon(values[i]);
    }
    hide PickSplit, KeepsAll, Cp, Ordered, CutShort, Fold;
    SplitKeepsIff(keys);
    var left, right := keys[..|keys| / 2], keys[|keys| / 2..];
    forall upper, n ensures !CutShort(left, upper, n) { NoneCutShort(left, upper, n); }
    forall upper, n ensures !CutShort(right, upper, n) { NoneCutShort(right, upper, n); }
  }

  /** Bounds no longer than their common prefix have no stem to cut. */
  lemma NoneCutShort(keys: seq<Key>, upper: Bytes, n: nat)
    requires forall i :: 0 <= i < |keys| ==> Cp(keys[i]) == |keys[i].upper|
    ensures !CutShort(keys, upper, n)
  {
    hide Cp;
  }

  predicate SortedKeys(keys: seq<Key>) {
    forall i :: 0 < i < |keys| ==> Compare(keys[i - 1].lower, keys[i].lower) < 0 || keys[i - 1] == keys[i]
  }

  /** The split of an inner page does: of the keys for "a0" and "abzz", for "abzab",
      and twice for "bbbbbb", the left half no longer answers for "abzz". */
  lemma SplitLoses()
    ensures var a := Union([LeafKey([97, 48]), LeafKey([97, 98, 122, 122])]);
      var b, r := Union([LeafKey([97, 98, 122, 97, 98])]), Union([LeafKey([98, 98, 98, 98, 98, 98])]);
      && SortedKeys([a, b, r, r]) && Covers(a, [97, 98, 122, 122])
      && !Consistent(PickSplit([a, b, r, r]).0, [97, 98, 122, 122], Equal, false)
  {
    var v, x, y := [97, 98, 122, 122], [97, 98, 122, 97, 98], [98, 98, 98, 98, 98, 98];
    var a, b, r := Union([LeafKey([97, 48]), LeafKey(v)]), Union([LeafKey(x)]), Union([LeafKey(y)]);
    UnionOfTwo();
    UnionOfOne(x);
    UnionOfOne(y);
    assert Covers(a, v) by {
      LeafCovers([97, 48]);
      LeafCovers(v);
      UnionCovers([LeafKey([97, 48]), LeafKey(v)], 1, v);
    }
    LeftHalf();
    RightHalf();
    var keys := [a, b, r, r];
    assert keys[..2] == [a, b] && keys[2..] == [r, r];
    assert PickSplit(keys).0 == Key([97, 48], x);
    PastBound();
    InOrder();
  }

  lemma InOrder()
    ensures Compare([97, 48], [97, 98, 122, 97, 98]) < 0
    ensures Compare([97, 98, 122, 97, 98], [98, 98, 98, 98, 98, 98]) < 0
  {
    assert [97, 48] == [97] + [48] && [97, 98, 122, 97, 98] == [97] + [98, 122, 97, 98];
    FirstSame(97, [48], [98, 122, 97, 98]);
  }

  lemma UnionOfOne(x: Bytes)
    ensures Union([LeafKey(x)]) == LeafKey(x)
  {
    SelfCommon(x);
    assert Fold([LeafKey(x)], 1) == LeafKey(x);
  }

  lemma RightHalf()
    ensures var r := LeafKey([98, 98, 98, 98, 98, 98]); Fold([r, r], 2) == r && Cp(r) == 6
  {
    var r := LeafKey([98, 98, 98, 98, 98, 98]);
    SelfCommon(r.lower);
    assert Fold([r, r], 1) == r;
    CompareOrder(r.lower, r.lower, r.lower);
  }

  lemma {:induction false} SelfCommon(a: Bytes)
    ensures CommonLength(a, a) == |a|
  {
    if a != [] { SelfCommon(a[1..]); }
  }

  lemma FirstSame(c: Byte, a: Bytes, b: Bytes)
    ensures Compare([c] + a, [c] + b) == Compare(a, b)
    ensures CommonLength([c] + a, [c] + b) == 1 + CommonLength(a, b)
  {
    assert ([c] + a)[1..] == a && ([c] + b)[1..] == b;
  }

  lemma UnionOfTwo()
    ensures Union([LeafKey([97, 48]), LeafKey([97, 98, 122, 122])]) == Key([97, 48], [97, 98, 122])
  {
    var x, y := [97, 48], [97, 98, 122, 122];
    assert x == [97] + [48] && y == [97] + [98, 122, 122];
    FirstSame(97, [48], [98, 122, 122]);
    CompareOrder(x, y, x);
    var keys := [LeafKey(x), LeafKey(y)];
    assert Fold(keys, 1) == LeafKey(x);
    assert Fold(keys, 2) == Key(x, y);
    assert CommonLength(x, y) == 1;
  }

  lemma LeftHalf()
    ensures var l := Fold([Key([97, 48], [97, 98, 122]), LeafKey([97, 98, 122, 97, 98])], 2);
      l == Key([97, 48], [97, 98, 122, 97, 98]) && Cp(l) == 1
  {
    var k, b := Key([97, 48], [97, 98, 122]), LeafKey([97, 98, 122, 97, 98]);
    assert k.lower == [97] + [48] && b.lower == [97] + [98, 122, 97, 98];
    FirstSame(97, [48], [98, 122, 97, 98]);
    assert b.upper[..3] == k.upper;
    PrefixLe(k.upper, b.upper);
    CompareOrder(k.upper, b.upper, k.upper);
    assert Fold([k, b], 1) == k;
  }

  lemma PastBound()
    ensures !Consistent(Key([97, 48], [97, 98, 122, 97, 98]), [97, 98, 122, 122], Equal, false)
  {
    var v, u := [97, 98, 122, 122], [97, 98, 122, 97, 98];
    assert v == [97] + [98, 122, 122] && u == [97] + [98, 122, 97, 98];
    FirstSame(97, [98, 122, 122], [98, 122, 97, 98]);
    assert [98, 122, 122] == [98] + [122, 122] && [98, 122, 97, 98] == [98] + [122, 97, 98];
    FirstSame(98, [122, 122], [122, 97, 98]);
    assert [122, 122] == [122] + [122] && [122, 97, 98] == [122] + [97, 98];
    FirstSame(122, [122], [97, 98]);
    assert v[..2][1] == 98;
  }
}
