/** Distances between boxes, and why the distance of a node never exceeds that
    of a box below it. */
module CubeDistance {
  import opened Cube

  /** Distance of two intervals, as it is computed from their end points in any
      order. */
  function Distance1D(a1: real, a2: real, b1: real, b2: real): real {
    if a1 <= b1 && a2 <= b1 && a1 <= b2 && a2 <= b2 then Min(b1, b2) - Max(a1, a2)
    else if a1 > b1 && a2 > b1 && a1 > b2 && a2 > b2 then Min(a1, a2) - Max(b1, b2)
    else 0.0
  }

  /** How far apart two boxes are in dimension i. */
  function Gap(a: Box, b: Box, i: nat): (r: real)
    requires Valid(a) && Valid(b)
    ensures r >= 0.0
  {
    if Hi(a, i) < Lo(b, i) then Lo(b, i) - Hi(a, i)
    else if Hi(b, i) < Lo(a, i) then Lo(a, i) - Hi(b, i)
    else 0.0
  }

  function EndOf(b: Box, i: nat, upper: bool): real
    requires Valid(b)
  {
    if i < b.dim then if upper then UR(b, i) else LL(b, i) else 0.0
  }

  lemma GapIsDistance(a: Box, b: Box, i: nat)
    requires Valid(a) && Valid(b)
    ensures Distance1D(EndOf(a, i, false), EndOf(a, i, true), EndOf(b, i, false), EndOf(b, i, true)) == Gap(a, b, i)
    ensures Gap(b, a, i) == Gap(a, b, i)
  {
  }

  datatype Metric = Taxicab | SquaredEuclid | Chebyshev

  /** Takes the gap of one more dimension into account. */
  function Add(m: Metric, sofar: real, gap: real): real {
    match m
    case Taxicab => sofar + gap
    case SquaredEuclid => sofar + gap * gap
    case Chebyshev => Max(sofar, gap)
  }

  /** Distance over the first n dimensions. */
  function DistanceTo(m: Metric, a: Box, b: Box, n: nat): real
    requires Valid(a) && Valid(b)
  {
    if n == 0 then 0.0 else Add(m, DistanceTo(m, a, b, n - 1), Gap(a, b, n - 1))
  }

  function Distance(m: Metric, a: Box, b: Box): real
    requires Valid(a) && Valid(b)
  {
    DistanceTo(m, a, b, MaxDim(a, b))
  }

  lemma {:induction false} DistanceSym(m: Metric, a: Box, b: Box, n: nat)
    requires Valid(a) && Valid(b)
    ensures DistanceTo(m, a, b, n) == DistanceTo(m, b, a, n)
  {
    if n > 0 {
      DistanceSym(m, a, b, n - 1);
      GapIsDistance(a, b, n - 1);
    }
  }

  method DistanceOf(m: Metric, p: Box, q: Box) returns (d: real)
    requires Valid(p) && Valid(q)
    ensures d == Distance(m, p, q)
  {
    var a, b := p, q;
    if a.dim < b.dim {
      a, b := b, a;
      DistanceSym(m, p, q, q.dim);
    }
    hide Gap, Distance1D, Add;
    d := 0.0;
    for i := 0 to b.dim
      invariant d == DistanceTo(m, a, b, i)
    {
      GapIsDistance(a, b, i);
      d := Add(m, d, Distance1D(LL(a, i), UR(a, i), LL(b, i), UR(b, i)));
    }
    for i := b.dim to a.dim
      invariant d == DistanceTo(m, a, b, i)
    {
      GapIsDistance(a, b, i);
      d := Add(m, d, Distance1D(LL(a, i), UR(a, i), 0.0, 0.0));
    }
  }

  lemma GapShrinks(key: Box, c: Box, q: Box, i: nat)
    requires Valid(key) && Valid(c) && Valid(q) && Around(key, c)
    ensures Gap(key, q, i) <= Gap(c, q, i)
  {
    if i < key.dim { assert Lo(key, i) <= Lo(c, i) && Hi(c, i) <= Hi(key, i); }
  }

  lemma AddMonotone(m: Metric, s: real, t: real, g: real, h: real)
    requires s <= t && 0.0 <= g <= h
    ensures Add(m, s, g) <= Add(m, t, h)
    ensures Add(m, s, 0.0) >= s
  {
    if m.SquaredEuclid? { SquareUp(g, h); }
  }

  lemma SquareUp(g: real, h: real)
    requires 0.0 <= g <= h
    ensures g * g <= h * h
  {
    assert h * h - g * g == (h - g) * (h + g);
  }

  lemma {:induction false} DistanceShrinks(m: Metric, key: Box, c: Box, q: Box, n: nat)
    requires Valid(key) && Valid(c) && Valid(q) && Around(key, c)
    ensures DistanceTo(m, key, q, n) <= DistanceTo(m, c, q, n)
  {
    hide Add, Gap, Around;
    if n > 0 {
      DistanceShrinks(m, key, c, q, n - 1);
      GapShrinks(key, c, q, n - 1);
      AddMonotone(m, DistanceTo(m, key, q, n - 1), DistanceTo(m, c, q, n - 1), Gap(key, q, n - 1), Gap(c, q, n - 1));
    }
  }

  lemma {:induction false} NoFurther(m: Metric, a: Box, b: Box, n: nat)
    requires Valid(a) && Valid(b) && n >= MaxDim(a, b)
    ensures DistanceTo(m, a, b, n) == Distance(m, a, b) && DistanceTo(m, a, b, n) >= 0.0
    decreases n
  {
    if n > MaxDim(a, b) {
      NoFurther(m, a, b, n - 1);
      assert Gap(a, b, n - 1) == 0.0;
      assert 0.0 * 0.0 == 0.0;
    } else {
      NotNegative(m, a, b, n);
    }
  }

  lemma {:induction false} NotNegative(m: Metric, a: Box, b: Box, n: nat)
    requires Valid(a) && Valid(b)
    ensures DistanceTo(m, a, b, n) >= 0.0
  {
    hide Gap;
    if n > 0 {
      NotNegative(m, a, b, n - 1);
      var g := Gap(a, b, n - 1);
      SquareUp(0.0, g);
    }
  }

  /** In each metric the distance from a node to the query bounds from below the
      distance from any box below the node. */
  lemma NodeIsNearer(m: Metric, key: Box, c: Box, q: Box)
    requires Valid(key) && Valid(c) && Valid(q) && Around(key, c)
    ensures Distance(m, key, q) <= Distance(m, c, q)
  {
    hide DistanceTo;
    DistanceShrinks(m, key, c, q, MaxDim(key, q));
    NoFurther(m, c, q, MaxDim(key, q));
  }

  /** So are the Euclidean distances, the roots of the squares. */
  lemma RootIsNearer(key: Box, c: Box, q: Box, x: real, y: real)
    requires Valid(key) && Valid(c) && Valid(q) && Around(key, c)
    requires x >= 0.0 && y >= 0.0 && x * x == Distance(SquaredEuclid, key, q) && y * y == Distance(SquaredEuclid, c, q)
    ensures x <= y
  {
    hide Distance, Around;
    NodeIsNearer(SquaredEuclid, key, c, q);
    if y < x { LargerSquare(y, x); }
  }

  lemma LargerSquare(y: real, x: real)
    requires 0.0 <= y < x
    ensures y * y < x * x
  {
    assert x * x - y * y == (x - y) * (x + y);
    PositiveTimesPositive(x - y, x + y);
  }

  lemma PositiveTimesPositive(a: real, b: real)
    requires 0.0 < a && 0.0 < b
    ensures 0.0 < a * b
  {
  }

  // ----- ordering by one coordinate ------------------------------------------

  /** The ordering value of coordinate number coord: odd numbers are lower and
      even ones upper bounds; a negative number asks for the negated value. A
      node answers with the least value anything below can have. */
  function Coordinate(b: Box, coord: int, isLeaf: bool): real
    requires Valid(b) && coord != 0
  {
    var inverse := coord < 0;
    var n := if inverse then -coord else coord;
    var index, upper := (n - 1) / 2, (n - 1) % 2 == 1;
    var v :=
      if n > 2 * b.dim then 0.0
      else if b.point then b.x[index]
      else if isLeaf then if upper then Hi(b, index) else Lo(b, index)
      else if inverse then Hi(b, index) else Lo(b, index);
    if inverse then -v else v
  }

  lemma NodeCoordinateIsLess(key: Box, c: Box, coord: int)
    requires Valid(key) && Valid(c) && Around(key, c) && coord != 0
    ensures Coordinate(key, coord, false) <= Coordinate(c, coord, true)
  {
    var index := ((if coord < 0 then -coord else coord) - 1) / 2;
    if index < key.dim {
      assert Lo(key, index) <= Lo(c, index) && Hi(c, index) <= Hi(key, index);
    }
  }
}
