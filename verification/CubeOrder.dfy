/** The comparison that sorts boxes, and on which boxes it is an order. */
module CubeOrder {
  import opened Cube

  function Lows(b: Box, from: nat, to: nat): (s: seq<real>)
    requires Valid(b) && from <= to
    ensures |s| == to - from
  {
    seq(to - from, i requires 0 <= i < to - from => Lo(b, from + i))
  }

  function Highs(b: Box, from: nat, to: nat): (s: seq<real>)
    requires Valid(b) && from <= to
    ensures |s| == to - from
  {
    seq(to - from, i requires 0 <= i < to - from => Hi(b, from + i))
  }

  // ----- lexicographic comparison --------------------------------------------

  function Lex(s: seq<real>, t: seq<real>): int
    requires |s| == |t|
  {
    if s == [] then 0 else if s[0] < t[0] then -1 else if s[0] > t[0] then 1 else Lex(s[1..], t[1..])
  }

  lemma {:induction false} LexAt(s: seq<real>, t: seq<real>, i: nat)
    requires |s| == |t| && i < |s| && s[i] != t[i] && forall k :: 0 <= k < i ==> s[k] == t[k]
    ensures Lex(s, t) == if s[i] < t[i] then -1 else 1
  {
    if i > 0 { LexAt(s[1..], t[1..], i - 1); }
  }

  lemma {:induction false} LexZero(s: seq<real>, t: seq<real>)
    requires |s| == |t|
    ensures Lex(s, t) == 0 <==> s == t
  {
    if s != [] {
      LexZero(s[1..], t[1..]);
      assert s == [s[0]] + s[1..] && t == [t[0]] + t[1..];
    }
  }

  lemma {:induction false} LexFlip(s: seq<real>, t: seq<real>)
    requires |s| == |t|
    ensures Lex(t, s) == -Lex(s, t)
  {
    if s != [] { LexFlip(s[1..], t[1..]); }
  }

  lemma {:induction false} LexTrans(s: seq<real>, t: seq<real>, u: seq<real>)
    requires |s| == |t| == |u| && Lex(s, t) <= 0 && Lex(t, u) <= 0
    ensures Lex(s, u) <= 0 && (Lex(s, u) == 0 ==> Lex(s, t) == 0 && Lex(t, u) == 0)
  {
    if s != [] && s[0] == t[0] == u[0] { LexTrans(s[1..], t[1..], u[1..]); }
  }

  function Then(first: int, second: int): int {
    if first != 0 then first else second
  }

  lemma {:induction false} LexAppend(s: seq<real>, t: seq<real>, s': seq<real>, t': seq<real>)
    requires |s| == |t| && |s'| == |t'|
    ensures Lex(s + s', t + t') == Then(Lex(s, t), Lex(s', t'))
  {
    if s == [] {
      assert s + s' == s' && t + t' == t';
    } else {
      LexAppend(s[1..], t[1..], s', t');
      assert (s + s')[1..] == s[1..] + s' && (t + t')[1..] == t[1..] + t';
    }
  }

  // ----- the order -------------------------------------------------------------

  /** All bounds up to dimension n, those of the first m dimensions first. */
  function Key(b: Box, m: nat, n: nat): (s: seq<real>)
    requires Valid(b) && m <= n
    ensures |s| == 2 * n
  {
    Lows(b, 0, m) + Highs(b, 0, m) + Lows(b, m, n) + Highs(b, m, n)
  }

  function ByDim(a: Box, b: Box): int {
    if a.dim < b.dim then -1 else if a.dim > b.dim then 1 else 0
  }

  /** Common dimensions come first, and a box of more dimensions last. */
  function Order(a: Box, b: Box): int
    requires Valid(a) && Valid(b)
  {
    var m, n := MinDim(a, b), MaxDim(a, b);
    Then(Lex(Key(a, m, n), Key(b, m, n)), ByDim(a, b))
  }

  lemma OrderParts(a: Box, b: Box)
    requires Valid(a) && Valid(b)
    ensures var m, n := MinDim(a, b), MaxDim(a, b);
      Order(a, b) == Then(Lex(Lows(a, 0, m), Lows(b, 0, m)), Then(Lex(Highs(a, 0, m), Highs(b, 0, m)),
        Then(Lex(Lows(a, m, n), Lows(b, m, n)), Then(Lex(Highs(a, m, n), Highs(b, m, n)), ByDim(a, b)))))
  {
    var m, n := MinDim(a, b), MaxDim(a, b);
    hide Lex, Lows, Highs;
    LexAppend(Lows(a, 0, m), Lows(b, 0, m), Highs(a, 0, m), Highs(b, 0, m));
    LexAppend(Lows(a, 0, m) + Highs(a, 0, m), Lows(b, 0, m) + Highs(b, 0, m), Lows(a, m, n), Lows(b, m, n));
    LexAppend(Lows(a, 0, m) + Highs(a, 0, m) + Lows(a, m, n), Lows(b, 0, m) + Highs(b, 0, m) + Lows(b, m, n),
      Highs(a, m, n), Highs(b, m, n));
  }

  /** The comparisons of the dimensions in from .. to - 1, low ends first. */
  function Stretch(a: Box, b: Box, from: nat, to: nat): int
    requires Valid(a) && Valid(b) && from <= to
  {
    Then(Lex(Lows(a, from, to), Lows(b, from, to)), Lex(Highs(a, from, to), Highs(b, from, to)))
  }

  lemma LowsDiffer(a: Box, b: Box, from: nat, to: nat, i: nat)
    requires Valid(a) && Valid(b) && from <= i < to && Lo(a, i) != Lo(b, i)
    requires forall k :: from <= k < i ==> Lo(a, k) == Lo(b, k)
    ensures Stretch(a, b, from, to) == if Lo(a, i) < Lo(b, i) then -1 else 1
  {
    LexAt(Lows(a, from, to), Lows(b, from, to), i - from);
  }

  lemma HighsDiffer(a: Box, b: Box, from: nat, to: nat, i: nat)
    requires Valid(a) && Valid(b) && from <= i < to && Hi(a, i) != Hi(b, i)
    requires forall k :: from <= k < to ==> Lo(a, k) == Lo(b, k)
    requires forall k :: from <= k < i ==> Hi(a, k) == Hi(b, k)
    ensures Stretch(a, b, from, to) == if Hi(a, i) < Hi(b, i) then -1 else 1
  {
    LexZero(Lows(a, from, to), Lows(b, from, to));
    LexAt(Highs(a, from, to), Highs(b, from, to), i - from);
  }

  lemma NoneDiffers(a: Box, b: Box, from: nat, to: nat)
    requires Valid(a) && Valid(b) && from <= to
    requires forall k :: from <= k < to ==> Lo(a, k) == Lo(b, k) && Hi(a, k) == Hi(b, k)
    ensures Stretch(a, b, from, to) == 0
  {
    LexZero(Lows(a, from, to), Lows(b, from, to));
    LexZero(Highs(a, from, to), Highs(b, from, to));
  }

  /** Compares the dimensions that only a has with zero. */
  method CompareExcess(a: Box, dim: nat, ghost b: Box) returns (r: int)
    requires Valid(a) && Valid(b) && b.dim == dim < a.dim
    ensures r == Then(Stretch(a, b, dim, a.dim), 1)
  {
    hide Stretch;
    for i := dim to a.dim
      invariant forall k :: dim <= k < i ==> Lo(a, k) == Lo(b, k)
    {
      if Lo(a, i) > 0.0 { LowsDiffer(a, b, dim, a.dim, i); return 1; }
      if Lo(a, i) < 0.0 { LowsDiffer(a, b, dim, a.dim, i); return -1; }
    }
    for i := dim to a.dim
      invariant forall k :: dim <= k < i ==> Hi(a, k) == Hi(b, k)
    {
      if Hi(a, i) > 0.0 { HighsDiffer(a, b, dim, a.dim, i); return 1; }
      if Hi(a, i) < 0.0 { HighsDiffer(a, b, dim, a.dim, i); return -1; }
    }
    NoneDiffers(a, b, dim, a.dim);
    return 1;
  }

  /** Compares the common dimensions, then the others with zero. */
  method CmpV0(a: Box, b: Box) returns (r: int)
    requires Valid(a) && Valid(b)
    ensures r == Order(a, b)
  {
    OrderParts(a, b);
    hide Order;
    var dim := MinDim(a, b);
    for i := 0 to dim
      invariant forall k :: 0 <= k < i ==> Lo(a, k) == Lo(b, k)
    {
      if Lo(a, i) > Lo(b, i) { LowsDiffer(a, b, 0, dim, i); return 1; }
      if Lo(a, i) < Lo(b, i) { LowsDiffer(a, b, 0, dim, i); return -1; }
    }
    for i := 0 to dim
      invariant forall k :: 0 <= k < i ==> Hi(a, k) == Hi(b, k)
    {
      if Hi(a, i) > Hi(b, i) { HighsDiffer(a, b, 0, dim, i); return 1; }
      if Hi(a, i) < Hi(b, i) { HighsDiffer(a, b, 0, dim, i); return -1; }
    }
    NoneDiffers(a, b, 0, dim);
    if a.dim > b.dim {
      r := CompareExcess(a, dim, b);
      return;
    }
    if a.dim < b.dim {
      r := CompareExcess(b, dim, a);
      StretchFlip(a, b, dim, b.dim);
      return -r;
    }
    NoneDiffers(a, b, dim, dim);
    return 0;
  }

  lemma StretchFlip(a: Box, b: Box, from: nat, to: nat)
    requires Valid(a) && Valid(b) && from <= to
    ensures Stretch(b, a, from, to) == -Stretch(a, b, from, to)
  {
    LexFlip(Lows(a, from, to), Lows(b, from, to));
    LexFlip(Highs(a, from, to), Highs(b, from, to));
  }

  // ----- where it is an order --------------------------------------------------

  /** It tells any two boxes apart, one way round. */
  lemma OrderIsTotal(a: Box, b: Box)
    requires Valid(a) && Valid(b)
    ensures Order(b, a) == -Order(a, b)
    ensures Order(a, b) == 0 <==> Same(a, b)
  {
    var m, n := MinDim(a, b), MaxDim(a, b);
    LexFlip(Key(a, m, n), Key(b, m, n));
    LexZero(Key(a, m, n), Key(b, m, n));
    if a.dim == b.dim { KeyBounds(a, b, n); }
  }

  lemma KeyBounds(a: Box, b: Box, n: nat)
    requires Valid(a) && Valid(b)
    ensures Key(a, n, n) == Key(b, n, n) <==> forall i :: 0 <= i < n ==> Lo(a, i) == Lo(b, i) && Hi(a, i) == Hi(b, i)
  {
    if Key(a, n, n) == Key(b, n, n) {
      forall i | 0 <= i < n ensures Lo(a, i) == Lo(b, i) && Hi(a, i) == Hi(b, i) {
        assert Key(a, n, n)[i] == Lo(a, i) && Key(b, n, n)[i] == Lo(b, i);
        assert Key(a, n, n)[n + i] == Hi(a, i) && Key(b, n, n)[n + i] == Hi(b, i);
      }
    }
    if forall i :: 0 <= i < n ==> Lo(a, i) == Lo(b, i) && Hi(a, i) == Hi(b, i) {
      assert Lows(a, 0, n) == Lows(b, 0, n) && Highs(a, 0, n) == Highs(b, 0, n);
    }
  }

  predicate Chained(dims: iset<nat>, a: Box, b: Box, c: Box) {
    && Valid(a) && Valid(b) && Valid(c) && a.dim in dims && b.dim in dims && c.dim in dims
    && Order(a, b) < 0 && Order(b, c) < 0
  }

  ghost predicate Transitive(dims: iset<nat>) {
    forall a, b, c :: Chained(dims, a, b, c) ==> Order(a, c) < 0
  }

  /** All the dimensions other than zero are one. */
  ghost predicate OneDim(dims: iset<nat>, e: nat) {
    forall d :: d in dims ==> d == 0 || d == e
  }

  /** Between boxes of no dimensions and of e dimensions all comparisons have one
      priority: all low ends, then all high ends. */
  lemma OnePriority(a: Box, b: Box, e: nat)
    requires Valid(a) && Valid(b) && (a.dim == 0 || a.dim == e) && (b.dim == 0 || b.dim == e)
    ensures Order(a, b) == Then(Lex(Key(a, 0, e), Key(b, 0, e)), ByDim(a, b))
  {
    hide Lex;
    if a.dim == e && b.dim == e {
      assert Key(a, e, e) == Key(a, 0, e) && Key(b, e, e) == Key(b, 0, e);
    } else if a.dim == 0 && b.dim == 0 {
      assert Key(a, 0, e) == Key(b, 0, e);
      LexZero(Key(a, 0, e), Key(b, 0, e));
      LexZero(Key(a, 0, 0), Key(b, 0, 0));
    }
  }

  lemma TransitiveOn(a: Box, b: Box, c: Box, e: nat)
    requires Valid(a) && Valid(b) && Valid(c) && a.dim in {0, e} && b.dim in {0, e} && c.dim in {0, e}
    requires Order(a, b) < 0 && Order(b, c) < 0
    ensures Order(a, c) < 0
  {
    OnePriority(a, b, e);
    OnePriority(b, c, e);
    OnePriority(a, c, e);
    hide Order, Key, Lex;
    LexTrans(Key(a, 0, e), Key(b, 0, e), Key(c, 0, e));
  }

  /** Point or box with low end lo and high end hi at one dimension each and
      zero elsewhere. */
  function Spike(dim: nat, i: nat, lo: real, j: nat, hi: real): (b: Box)
    requires i < dim && j < dim && lo <= 0.0 <= hi
    ensures Valid(b) && b.dim == dim
    ensures forall k :: 0 <= k < dim ==> Lo(b, k) == (if k == i then lo else 0.0) && Hi(b, k) == if k == j then hi else 0.0
  {
    Box(false, dim, seq(2 * dim, k requires 0 <= k < 2 * dim =>
      if k == i then lo else if k == dim + j then hi else 0.0))
  }

  /** With two dimensions other than zero there are boxes each below the next, and
      the last below the first. */
  lemma Cycle(d: nat, e: nat) returns (a: Box, b: Box, c: Box)
    requires 0 < d < e
    ensures Valid(a) && Valid(b) && Valid(c) && a.dim == d && b.dim == e && c.dim == e
    ensures Order(a, b) < 0 && Order(b, c) < 0 && Order(c, a) < 0
  {
    a, b, c := Spike(d, 0, 0.0, 0, 1.0), Spike(e, d, -1.0, 0, 2.0), Spike(e, 0, 0.0, 0, 0.0);
    hide Spike, Lows, Highs, Lex;
    OrderParts(a, b);
    HighsDiffer(a, b, 0, d, 0);
    OrderParts(b, c);
    LowsDiffer(b, c, 0, e, d);
    OrderParts(c, a);
    HighsDiffer(c, a, 0, d, 0);
  }

  /** The comparison is an order of all boxes whose dimensions are in a set if and
      only if the set has at most one dimension other than zero. */
  lemma TransitiveIff(dims: iset<nat>)
    ensures Transitive(dims) <==> exists e :: OneDim(dims, e)
  {
    if e :| OneDim(dims, e) {
      forall a, b, c | Chained(dims, a, b, c) ensures Order(a, c) < 0 {
        TransitiveOn(a, b, c, e);
      }
    }
    if !exists e :: OneDim(dims, e) {
      TwoDims(dims);
    }
  }

  lemma TwoDims(dims: iset<nat>)
    requires !exists e :: OneDim(dims, e)
    ensures !Transitive(dims)
  {
    assert !OneDim(dims, 0);
    var d :| d in dims && d != 0;
    assert !OneDim(dims, d);
    var e :| e in dims && e != 0 && e != d;
    var a, b, c := Cycle(if d < e then d else e, if d < e then e else d);
    OrderIsTotal(a, c);
    assert Chained(dims, a, b, c);
  }
}
