/**
 Range compression of internal index keys: a sorted set of integers is rewritten
 in place as exactly MAXNUMRANGE ranges, closing the narrowest gaps, and
 expanded again when the key is read.
 */
module IntRanges {
  import opened IntSets

  const MAXNUMRANGE: nat := 100
  const MAXNUMELTS: nat := 67108863
  const INT32_MIN := -0x8000_0000
  const INT32_MAX := 0x7fff_ffff
  const INT64_MAX := 0x7fff_ffff_ffff_ffff

  /** A run of positions of the sorted set, both ends included. */
  datatype Range = Range(lo: nat, hi: nat)

  /** The runs cover positions from..to, in order and without holes. */
  predicate Tiles(rs: seq<Range>, from: nat, to: nat) {
    && (if rs == [] then from == to else rs[0].lo == from && rs[|rs| - 1].hi + 1 == to)
    && (forall k :: 0 <= k < |rs| ==> from <= rs[k].lo <= rs[k].hi < to)
    && (forall k :: 0 < k < |rs| ==> rs[k - 1].hi + 1 == rs[k].lo && from < rs[k].lo)
  }

  /** From position at on, d holds the first and last element of each run. */
  predicate Written(d: seq<int>, at: nat, a: seq<int>, rs: seq<Range>) {
    at + 2 * |rs| <= |d| &&
    forall k :: 0 <= k < |rs| ==>
      && rs[k].lo < |a| && rs[k].hi < |a|
      && d[at + 2 * k] == a[rs[k].lo] && d[at + 2 * k + 1] == a[rs[k].hi]
  }

  function GapAt(a: seq<int>, j: nat): int
    requires 0 < j < |a|
  {
    a[j] - a[j - 1]
  }

  /** Every gap inside a run is at most w wide. */
  predicate ClosedAtMost(a: seq<int>, rs: seq<Range>, w: int) {
    forall m, j :: 0 <= m < |rs| && rs[m].lo < j <= rs[m].hi ==> j < |a| && GapAt(a, j) <= w
  }

  /** Every gap between runs is at least w wide. */
  predicate OpenAtLeast(a: seq<int>, rs: seq<Range>, w: int) {
    forall k :: 0 < k < |rs| ==> 0 < rs[k].lo < |a| && GapAt(a, rs[k].lo) >= w
  }

  // ----- compression -------------------------------------------------------

  /** The part of the key already turned into ranges: positions from i on, in
      slots from j on, with only steps of one closed. */
  ghost predicate Done(d: seq<int>, a: seq<int>, rs: seq<Range>, i: nat, j: nat) {
    && i <= j <= |a| && |d| == 2 * |a| && |rs| == |a| - j
    && Tiles(rs, i, |a|) && ClosedAtMost(a, rs, 1) && Written(d, 2 * j, a, rs)
    && forall k :: 0 <= k < i ==> d[k] == a[k]
  }

  /** Works down from the last element: runs of consecutive integers become one
      range each while ranges are left to remove, the rest become trivial
      ranges. Writing never reaches an element not yet read. */
  method MergeConsecutive(dr: array<int>, len: nat, ghost a: seq<int>) returns (first: nat, ghost rs: seq<Range>)
    requires MAXNUMRANGE <= len == |a| && dr.Length == 2 * len && Increasing(a)
    requires forall k :: 0 <= k < len ==> dr[k] == a[k]
    modifies dr
    ensures MAXNUMRANGE <= |rs| && Done(dr[..], a, rs, 0, first)
  {
    hide Done, Increasing;
    var lenr := len - MAXNUMRANGE;
    var i, j := len - 1, len - 1;
    rs := [];
    DoneStart(dr[..], a);
    while i > 0 && lenr > 0
      invariant -1 <= i <= j < len && 0 <= lenr == len - MAXNUMRANGE - (j - i)
      invariant Done(dr[..], a, rs, i + 1, j + 1)
    {
      DoneUnread(dr[..], a, rs, i + 1, j + 1);
      ghost var top := i;
      var rEnd := dr[i];
      var rStart;
      i, lenr, rStart := ConsecutiveRun(dr, i, lenr, a);
      WriteRange(dr, i, j, rStart, rEnd, a, rs, Range(i, top));
      rs := [Range(i, top)] + rs;
      i, j := i - 1, j - 1;
    }
    while i >= 0
      invariant -1 <= i <= j < len && j - i <= len - MAXNUMRANGE
      invariant Done(dr[..], a, rs, i + 1, j + 1)
    {
      DoneUnread(dr[..], a, rs, i + 1, j + 1);
      WriteRange(dr, i, j, dr[i], dr[i], a, rs, Range(i, i));
      rs := [Range(i, i)] + rs;
      i, j := i - 1, j - 1;
    }
    first := j + 1;
    DoneUnread(dr[..], a, rs, i + 1, j + 1);
  }

  lemma DoneStart(d: seq<int>, a: seq<int>)
    requires |d| == 2 * |a| && forall k :: 0 <= k < |a| ==> d[k] == a[k]
    ensures Done(d, a, [], |a|, |a|)
  {
  }

  lemma DoneUnread(d: seq<int>, a: seq<int>, rs: seq<Range>, i: nat, j: nat)
    requires Done(d, a, rs, i, j)
    ensures i <= j <= |a| && |d| == 2 * |a| && |rs| == |a| - j && forall k :: 0 <= k < i ==> d[k] == a[k]
  {
  }

  /** Steps down while the next element is one less and ranges are left to remove. */
  method ConsecutiveRun(dr: array<int>, top: nat, lenr: nat, ghost a: seq<int>) returns (i: nat, left: nat, rStart: int)
    requires top < |a| <= dr.Length && forall k :: 0 <= k <= top ==> dr[k] == a[k]
    ensures i <= top && left <= lenr && top - i == lenr - left
    ensures rStart == a[i] && forall p :: i < p <= top ==> GapAt(a, p) == 1
    ensures i == 0 || left == 0 || a[i - 1] != a[i] - 1
  {
    rStart, i, left := dr[top], top, lenr;
    while i > 0 && left > 0 && dr[i - 1] == rStart - 1
      invariant i <= top && left <= lenr && top - i == lenr - left
      invariant rStart == a[i] && forall p :: i < p <= top ==> GapAt(a, p) == 1
    {
      assert GapAt(a, i) == 1;
      rStart, i, left := rStart - 1, i - 1, left - 1;
    }
  }

  /** Stores the run i..top at slot j; elements below i stay as they were. */
  method WriteRange(dr: array<int>, i: nat, j: nat, rStart: int, rEnd: int,
                    ghost a: seq<int>, ghost rs: seq<Range>, ghost r: Range)
    requires i <= j < |a| && r.lo == i <= r.hi < |a| && Done(dr[..], a, rs, r.hi + 1, j + 1)
    requires rStart == a[r.lo] && rEnd == a[r.hi] && forall p :: i < p <= r.hi ==> GapAt(a, p) == 1
    modifies dr
    ensures Done(dr[..], a, [r] + rs, i, j)
  {
    ghost var d := dr[..];
    dr[2 * j] := rStart;
    dr[2 * j + 1] := rEnd;
    ghost var d' := dr[..];
    assert forall k :: 0 <= k < i ==> d'[k] == d[k];
    WrittenCons(d, d', j, a, rs, r);
    TilesCons(rs, r, |a|);
    ClosedCons(a, rs, r);
  }

  lemma WrittenCons(d: seq<int>, d': seq<int>, j: nat, a: seq<int>, rs: seq<Range>, r: Range)
    requires Written(d, 2 * (j + 1), a, rs) && |d'| == |d| && 2 * j + 1 < |d|
    requires r.lo < |a| && r.hi < |a| && d'[2 * j] == a[r.lo] && d'[2 * j + 1] == a[r.hi]
    requires forall k :: 2 * j + 2 <= k < |d| ==> d'[k] == d[k]
    ensures Written(d', 2 * j, a, [r] + rs)
  {
    forall k | 0 <= k < |[r] + rs|
      ensures d'[2 * j + 2 * k] == a[([r] + rs)[k].lo] && d'[2 * j + 2 * k + 1] == a[([r] + rs)[k].hi]
    {
      if k > 0 { assert d[2 * (j + 1) + 2 * (k - 1)] == a[rs[k - 1].lo]; }
    }
  }

  lemma TilesCons(rs: seq<Range>, r: Range, to: nat)
    requires r.lo <= r.hi < to && Tiles(rs, r.hi + 1, to)
    ensures Tiles([r] + rs, r.lo, to)
  {
    var rs' := [r] + rs;
    forall k | 0 < k < |rs'| ensures rs'[k - 1].hi + 1 == rs'[k].lo && r.lo < rs'[k].lo {
      assert rs'[k] == rs[k - 1];
      if k > 1 { assert rs'[k - 1] == rs[k - 2]; }
    }
  }

  lemma ClosedCons(a: seq<int>, rs: seq<Range>, r: Range)
    requires forall k :: 0 <= k < |rs| ==> rs[k].hi < |a|
    requires r.hi < |a| && ClosedAtMost(a, rs, 1) && forall p :: r.lo < p <= r.hi ==> GapAt(a, p) == 1
    ensures ClosedAtMost(a, [r] + rs, 1)
  {
    forall m, j | 0 <= m < |[r] + rs| && ([r] + rs)[m].lo < j <= ([r] + rs)[m].hi ensures GapAt(a, j) <= 1 {
      if m > 0 { assert ([r] + rs)[m] == rs[m - 1]; }
    }
  }

  /** Shunts the ranges down to the start of the array. */
  method ShiftDown(dr: array<int>, first: nat, ghost a: seq<int>, ghost rs: seq<Range>)
    requires dr.Length == 2 * (first + |rs|) && Written(dr[..], 2 * first, a, rs)
    modifies dr
    ensures Written(dr[..], 0, a, rs)
  {
    if first != 0 {
      ghost var d := dr[..];
      forall k | 0 <= k < dr.Length - 2 * first {
        dr[k] := dr[2 * first + k];
      }
      ghost var d' := dr[..];
      forall k | 0 <= k < |rs| ensures d'[0 + 2 * k] == a[rs[k].lo] && d'[0 + 2 * k + 1] == a[rs[k].hi] {
        assert d[2 * first + 2 * k] == a[rs[k].lo];
      }
    }
  }

  /** The first of the narrowest gaps between neighbouring ranges. */
  method SmallestGap(dr: array<int>, len: nat) returns (cand: nat)
    requires 2 < len <= dr.Length && len % 2 == 0
    requires forall k :: 0 <= k < len ==> INT32_MIN <= dr[k] <= INT32_MAX
    ensures cand % 2 == 0 && 2 <= cand < len
    ensures forall k :: 1 <= k < len / 2 ==> dr[cand] - dr[cand - 1] <= dr[2 * k] - dr[2 * k - 1]
  {
    var min := INT64_MAX;
    cand := 1;
    var i := 2;
    while i < len
      invariant 2 <= i <= len && i % 2 == 0
      invariant i > 2 ==> cand % 2 == 0 && 2 <= cand < i && min == dr[cand] - dr[cand - 1]
      invariant i == 2 ==> min == INT64_MAX
      invariant forall k :: 1 <= k < i / 2 ==> min <= dr[2 * k] - dr[2 * k - 1]
    {
      if min > dr[i] - dr[i - 1] {
        min := dr[i] - dr[i - 1];
        cand := i;
      }
      i := i + 2;
    }
  }

  /** The runs after the gap before run c is closed. */
  function Closed(rs: seq<Range>, c: nat): seq<Range>
    requires 0 < c < |rs|
  {
    rs[..c - 1] + [Range(rs[c - 1].lo, rs[c].hi)] + rs[c + 1..]
  }

  lemma ClosedAt(rs: seq<Range>, c: nat, k: nat)
    requires 0 < c < |rs| && k < |rs| - 1
    ensures |Closed(rs, c)| == |rs| - 1
    ensures Closed(rs, c)[k].lo == rs[if k < c then k else k + 1].lo
    ensures Closed(rs, c)[k].hi == rs[if k < c - 1 then k else k + 1].hi
  {
  }

  lemma ClosedTiles(rs: seq<Range>, c: nat, to: nat)
    requires 0 < c < |rs| && Tiles(rs, 0, to)
    ensures Tiles(Closed(rs, c), 0, to)
  {
    var rs' := Closed(rs, c);
    ClosedAt(rs, c, 0);
    ClosedAt(rs, c, |rs| - 2);
    hide Closed;
    forall k | 0 <= k < |rs'| ensures 0 <= rs'[k].lo <= rs'[k].hi < to {
      ClosedAt(rs, c, k);
    }
    forall k | 0 < k < |rs'| ensures rs'[k - 1].hi + 1 == rs'[k].lo && 0 < rs'[k].lo {
      ClosedAt(rs, c, k);
      ClosedAt(rs, c, k - 1);
    }
  }

  /** Closing the narrowest open gap keeps every open gap at least as wide as
      every closed one. */
  lemma ClosedWidths(a: seq<int>, rs: seq<Range>, c: nat, w: int)
    requires 0 < c < |rs| && Tiles(rs, 0, |a|) && Tiles(Closed(rs, c), 0, |a|)
    requires ClosedAtMost(a, rs, w) && w <= GapAt(a, rs[c].lo) && OpenAtLeast(a, rs, GapAt(a, rs[c].lo))
    ensures ClosedAtMost(a, Closed(rs, c), GapAt(a, rs[c].lo)) && OpenAtLeast(a, Closed(rs, c), GapAt(a, rs[c].lo))
  {
    var rs', g := Closed(rs, c), GapAt(a, rs[c].lo);
    hide Closed;
    ClosedAt(rs, c, 0);
    forall m, j | 0 <= m < |rs'| && rs'[m].lo < j <= rs'[m].hi ensures GapAt(a, j) <= g {
      ClosedAt(rs, c, m);
      if m == c - 1 {
        MiddleGap(a, rs, c, w, j);
      } else {
        var l := if m < c then m else m + 1;
        assert rs[l].lo < j <= rs[l].hi;
      }
    }
    forall k | 0 < k < |rs'| ensures GapAt(a, rs'[k].lo) >= g {
      ClosedAt(rs, c, k);
    }
  }

  /** A gap inside the joined run was inside one of the two, or is the one closed. */
  lemma MiddleGap(a: seq<int>, rs: seq<Range>, c: nat, w: int, j: nat)
    requires 0 < c < |rs| && Tiles(rs, 0, |a|) && ClosedAtMost(a, rs, w) && w <= GapAt(a, rs[c].lo)
    requires rs[c - 1].lo < j <= rs[c].hi
    ensures GapAt(a, j) <= GapAt(a, rs[c].lo)
  {
    if j <= rs[c - 1].hi {
      assert rs[c - 1].lo < j;
    } else if j > rs[c].lo {
      assert rs[c].lo < j <= rs[c].hi;
    }
  }

  lemma ClosedWritten(d: seq<int>, d': seq<int>, a: seq<int>, rs: seq<Range>, c: nat)
    requires 0 < c < |rs| && Written(d, 0, a, rs) && |d'| == |d|
    requires forall k :: 0 <= k < 2 * c - 1 ==> d'[k] == d[k]
    requires forall k :: 2 * c - 1 <= k < 2 * |rs| - 2 ==> d'[k] == d[k + 2]
    ensures Written(d', 0, a, Closed(rs, c))
  {
    var rs' := Closed(rs, c);
    forall k | 0 <= k < |rs'|
      ensures rs'[k].lo < |a| && rs'[k].hi < |a| && d'[0 + 2 * k] == a[rs'[k].lo] && d'[0 + 2 * k + 1] == a[rs'[k].hi]
    {
      if k < c - 1 {
        assert rs'[k] == rs[k];
        assert d[0 + 2 * k] == a[rs[k].lo];
      } else if k == c - 1 {
        assert d[0 + 2 * k] == a[rs[k].lo] && d[0 + 2 * c + 1] == a[rs[c].hi];
      } else {
        assert rs'[k] == rs[k + 1];
        assert d[0 + 2 * (k + 1)] == a[rs[k + 1].lo];
      }
    }
  }

  /** The key that stands for the runs: first and last element of each. */
  function Flat(a: seq<int>, rs: seq<Range>): (d: seq<int>)
    requires forall k :: 0 <= k < |rs| ==> rs[k].lo < |a| && rs[k].hi < |a|
    ensures |d| == 2 * |rs|
  {
    seq(2 * |rs|, i requires 0 <= i < 2 * |rs| => if i % 2 == 0 then a[rs[i / 2].lo] else a[rs[i / 2].hi])
  }

  /** A state of the second phase: the array holds the runs, and w separates
      the widths of closed and open gaps. */
  ghost predicate Good(d: seq<int>, a: seq<int>, rs: seq<Range>, w: int) {
    Tiles(rs, 0, |a|) && Written(d, 0, a, rs) && 1 <= w && ClosedAtMost(a, rs, w) && OpenAtLeast(a, rs, w)
  }

  lemma GoodStart(d: seq<int>, a: seq<int>, rs: seq<Range>)
    requires Increasing(a) && Tiles(rs, 0, |a|) && ClosedAtMost(a, rs, 1) && Written(d, 0, a, rs)
    ensures Good(d, a, rs, 1)
  {
  }

  lemma GoodValues(d: seq<int>, a: seq<int>, rs: seq<Range>, w: int)
    requires Good(d, a, rs, w)
    ensures 2 * |rs| <= |d| && forall i :: 0 <= i < 2 * |rs| ==> d[i] in a
  {
    forall i | 0 <= i < 2 * |rs| ensures d[i] in a {
      var k := i / 2;
      assert d[0 + 2 * k] == a[rs[k].lo] && d[0 + 2 * k + 1] == a[rs[k].hi];
    }
  }

  /** The gap before run k, read from the array. */
  lemma GapWritten(d: seq<int>, a: seq<int>, rs: seq<Range>, k: nat)
    requires Tiles(rs, 0, |a|) && Written(d, 0, a, rs) && 0 < k < |rs|
    ensures 0 < rs[k].lo < |a| && d[2 * k] - d[2 * k - 1] == GapAt(a, rs[k].lo)
  {
    assert d[0 + 2 * (k - 1) + 1] == a[rs[k - 1].hi];
    assert d[0 + 2 * k] == a[rs[k].lo];
  }

  lemma GoodStep(d: seq<int>, d': seq<int>, a: seq<int>, rs: seq<Range>, c: nat, w: int)
    requires Good(d, a, rs, w) && 0 < c < |rs| && |d| == |d'|
    requires forall k :: 1 <= k < |rs| ==> d[2 * c] - d[2 * c - 1] <= d[2 * k] - d[2 * k - 1]
    requires forall k :: 0 <= k < 2 * c - 1 ==> d'[k] == d[k]
    requires forall k :: 2 * c - 1 <= k < 2 * |rs| - 2 ==> d'[k] == d[k + 2]
    ensures Good(d', a, Closed(rs, c), d[2 * c] - d[2 * c - 1])
  {
    hide Written, Tiles, ClosedAtMost, Closed;
    GapWritten(d, a, rs, c);
    forall k | 0 < k < |rs| ensures 0 < rs[k].lo < |a| && GapAt(a, rs[c].lo) <= GapAt(a, rs[k].lo) {
      GapWritten(d, a, rs, k);
    }
    ClosedTiles(rs, c, |a|);
    ClosedWidths(a, rs, c, w);
    ClosedWritten(d, d', a, rs, c);
  }

  /** Closes the narrowest gap until MAXNUMRANGE ranges are left. */
  method MergeSmallest(dr: array<int>, n: nat, ghost a: seq<int>, ghost rs0: seq<Range>)
    returns (len: nat, ghost rs: seq<Range>, ghost w: int)
    requires MAXNUMRANGE <= |rs0| && n == 2 * |rs0| <= dr.Length && Good(dr[..], a, rs0, 1)
    requires forall x :: x in a ==> INT32_MIN <= x <= INT32_MAX
    modifies dr
    ensures |rs| == MAXNUMRANGE && len == 2 * |rs| <= dr.Length && Good(dr[..], a, rs, w)
  {
    hide Good, Closed;
    len, rs, w := n, rs0, 1;
    while len > MAXNUMRANGE * 2
      invariant MAXNUMRANGE <= |rs| && len == 2 * |rs| <= dr.Length && Good(dr[..], a, rs, w)
    {
      rs, w := CloseSmallest(dr, len, a, rs, w);
      len := len - 2;
    }
  }

  method CloseSmallest(dr: array<int>, len: nat, ghost a: seq<int>, ghost rs: seq<Range>, ghost w: int)
    returns (ghost rs': seq<Range>, ghost w': int)
    requires 2 < len == 2 * |rs| <= dr.Length && Good(dr[..], a, rs, w)
    requires forall x :: x in a ==> INT32_MIN <= x <= INT32_MAX
    modifies dr
    ensures |rs'| == |rs| - 1 && Good(dr[..], a, rs', w')
  {
    hide Good, Closed;
    ghost var d := dr[..];
    GoodValues(d, a, rs, w);
    assert forall k :: 0 <= k < len ==> dr[k] == d[k];
    var cand := SmallestGap(dr, len);
    ghost var c := cand / 2;
    forall k | cand - 1 <= k < len - 2 {
      dr[k] := dr[k + 2];
    }
    GoodStep(d, dr[..], a, rs, c, w);
    ClosedAt(rs, c, 0);
    rs', w' := Closed(rs, c), d[2 * c] - d[2 * c - 1];
  }

  /** The ends of the k-th range of a key. */
  function Lo(d: seq<int>, k: nat): int
    requires 2 * k + 1 < |d|
  {
    d[2 * k]
  }

  function Hi(d: seq<int>, k: nat): int
    requires 2 * k + 1 < |d|
  {
    d[2 * k + 1]
  }

  /** The sum of the widths of the first n ranges, a range that starts where
      the one before it ended not counted. */
  function RangeTotal(d: seq<int>, n: nat): int
    requires 2 * n <= |d|
  {
    if n == 0 then 0
    else RangeTotal(d, n - 1) +
         if n == 1 || Lo(d, n - 1) != Hi(d, n - 2) then Hi(d, n - 1) - Lo(d, n - 1) + 1 else 0
  }

  /** Number of elements a compressed key expands to; -1 when not an int. */
  method InternalSize(d: seq<int>) returns (r: int)
    requires |d| % 2 == 0
    ensures r == if INT32_MIN <= RangeTotal(d, |d| / 2) <= INT32_MAX then RangeTotal(d, |d| / 2) else -1
  {
    var size := 0;
    var i := 0;
    while i < |d|
      invariant 0 <= i <= |d| && i % 2 == 0 && size == RangeTotal(d, i / 2)
    {
      if i == 0 || d[i] != d[i - 1] {
        size := size + (d[i + 1] - d[i] + 1);
      }
      i := i + 2;
    }
    return if size > INT32_MAX || size < INT32_MIN then -1 else size;
  }

  predicate TooSparse(d: seq<int>)
    requires |d| % 2 == 0
  {
    !(0 <= RangeTotal(d, |d| / 2) <= MAXNUMELTS)
  }

  datatype KeyResult = Key(elems: seq<int>) | TooSparseError

  /** Compresses an internal key. */
  method Compress(r: seq<int>) returns (res: KeyResult, ghost rs: seq<Range>, ghost w: int)
    requires Increasing(r) && forall x :: x in r ==> INT32_MIN <= x <= INT32_MAX
    ensures |r| < 2 * MAXNUMRANGE ==> res == Key(r)
    ensures |r| >= 2 * MAXNUMRANGE ==>
              && |rs| == MAXNUMRANGE && Tiles(rs, 0, |r|)
              && 1 <= w && ClosedAtMost(r, rs, w) && OpenAtLeast(r, rs, w)
              && res == if TooSparse(Flat(r, rs)) then TooSparseError else Key(Flat(r, rs))
  {
    rs, w := [], 1;
    if |r| < 2 * MAXNUMRANGE {
      return Key(r), rs, w;
    }
    var len := |r|;
    var dr := new int[2 * len];
    forall k | 0 <= k < len {
      dr[k] := r[k];
    }
    var d;
    d, rs, w := CompressInPlace(dr, len, r);
    var lenr := InternalSize(d);
    if lenr < 0 || lenr > MAXNUMELTS {
      return TooSparseError, rs, w;
    }
    return Key(d), rs, w;
  }

  method CompressInPlace(dr: array<int>, len: nat, ghost a: seq<int>)
    returns (d: seq<int>, ghost rs: seq<Range>, ghost w: int)
    requires MAXNUMRANGE <= len == |a| && dr.Length == 2 * len && Increasing(a)
    requires (forall k :: 0 <= k < len ==> dr[k] == a[k]) && forall x :: x in a ==> INT32_MIN <= x <= INT32_MAX
    modifies dr
    ensures |rs| == MAXNUMRANGE && Tiles(rs, 0, |a|) && d == Flat(a, rs)
    ensures 1 <= w && ClosedAtMost(a, rs, w) && OpenAtLeast(a, rs, w)
  {
    var j;
    j, rs := MergeConsecutive(dr, len, a);
    ShiftDown(dr, j, a, rs);
    GoodStart(dr[..], a, rs);
    var n;
    n, rs, w := MergeSmallest(dr, 2 * (len - j), a, rs);
    d := dr[..n];
    WrittenIsFlat(dr[..], a, rs);
  }

  lemma WrittenIsFlat(d: seq<int>, a: seq<int>, rs: seq<Range>)
    requires Written(d, 0, a, rs)
    ensures d[..2 * |rs|] == Flat(a, rs)
  {
    forall i | 0 <= i < 2 * |rs| ensures d[i] == Flat(a, rs)[i] {
      var k := i / 2;
      assert d[0 + 2 * k] == a[rs[k].lo] && d[0 + 2 * k + 1] == a[rs[k].hi];
    }
  }

  // ----- what a compressed key means ---------------------------------------

  /** Disjoint ranges in ascending order. */
  predicate Ascending(d: seq<int>) {
    && |d| % 2 == 0
    && (forall k :: 0 <= k < |d| / 2 ==> Lo(d, k) <= Hi(d, k))
    && (forall k, l :: 0 <= k < l < |d| / 2 ==> Hi(d, k) < Lo(d, l))
  }

  predicate InRanges(d: seq<int>, x: int) {
    exists k :: 0 <= k < |d| / 2 && Lo(d, k) <= x <= Hi(d, k)
  }

  lemma {:induction false} TilesOrder(rs: seq<Range>, to: nat, k: nat, l: nat)
    requires Tiles(rs, 0, to) && k < l < |rs|
    ensures rs[k].hi < rs[l].lo
    decreases l
  {
    if k < l - 1 { TilesOrder(rs, to, k, l - 1); }
  }

  lemma {:induction false} TilesFind(rs: seq<Range>, to: nat, i: nat) returns (k: nat)
    requires Tiles(rs, 0, to) && i < to
    ensures k < |rs| && rs[k].lo <= i <= rs[k].hi
  {
    k := |rs| - 1;
    while i < rs[k].lo
      invariant k < |rs| && i <= rs[k].hi
    {
      k := k - 1;
    }
  }

  lemma FlatEnds(a: seq<int>, rs: seq<Range>, k: nat)
    requires forall k :: 0 <= k < |rs| ==> rs[k].lo < |a| && rs[k].hi < |a|
    requires k < |rs|
    ensures Lo(Flat(a, rs), k) == a[rs[k].lo] && Hi(Flat(a, rs), k) == a[rs[k].hi]
  {
  }

  /** A compressed key is made of disjoint ascending ranges... */
  lemma CompressedAscends(a: seq<int>, rs: seq<Range>)
    requires Increasing(a) && Tiles(rs, 0, |a|)
    ensures Ascending(Flat(a, rs))
  {
    var d := Flat(a, rs);
    hide Flat;
    forall k | 0 <= k < |d| / 2 ensures Lo(d, k) <= Hi(d, k) {
      FlatEnds(a, rs, k);
    }
    forall k, l | 0 <= k < l < |d| / 2 ensures Hi(d, k) < Lo(d, l) {
      TilesOrder(rs, |a|, k, l);
      FlatEnds(a, rs, k);
      FlatEnds(a, rs, l);
    }
  }

  /** ...whose ends are elements, and it loses no element. */
  lemma CompressedCovers(a: seq<int>, rs: seq<Range>)
    requires Increasing(a) && Tiles(rs, 0, |a|)
    ensures forall x :: x in a ==> InRanges(Flat(a, rs), x)
    ensures forall x :: x in Flat(a, rs) ==> x in a
  {
    var d := Flat(a, rs);
    assert forall i :: 0 <= i < |d| ==> d[i] in a;
    hide Flat;
    forall x | x in a ensures InRanges(d, x) {
      var i :| 0 <= i < |a| && a[i] == x;
      var k := TilesFind(rs, |a|, i);
      FlatEnds(a, rs, k);
      assert Lo(d, k) <= x <= Hi(d, k);
    }
  }

  // ----- no other grouping is smaller --------------------------------------

  /** The sum, over the positions below n that start a run, of what their gaps leave out. */
  function Saved(a: seq<int>, starts: set<nat>, n: nat): int
    requires n <= |a|
  {
    if n <= 1 then 0 else Saved(a, starts, n - 1) + if n - 1 in starts then GapAt(a, n - 1) - 1 else 0
  }

  function Cuts(starts: set<nat>, n: nat): nat {
    if n <= 1 then 0 else Cuts(starts, n - 1) + if n - 1 in starts then 1 else 0
  }

  function Starts(rs: seq<Range>): set<nat> {
    set k | 0 < k < |rs| :: rs[k].lo
  }

  lemma {:induction false} SavedAgree(a: seq<int>, s: set<nat>, t: set<nat>, n: nat)
    requires n <= |a| && forall j :: 1 <= j < n ==> (j in s <==> j in t)
    ensures Saved(a, s, n) == Saved(a, t, n) && Cuts(s, n) == Cuts(t, n)
  {
    if n > 1 { SavedAgree(a, s, t, n - 1); }
  }

  lemma {:induction false} SavedFlat(a: seq<int>, s: set<nat>, m: nat, n: nat)
    requires 1 <= m <= n <= |a| && forall j :: m <= j < n ==> j !in s
    ensures Saved(a, s, n) == Saved(a, s, m) && Cuts(s, n) == Cuts(s, m)
  {
    if m < n { SavedFlat(a, s, m, n - 1); }
  }

  lemma TilesPrefix(rs: seq<Range>, to: nat)
    requires 1 < |rs| && Tiles(rs, 0, to)
    ensures Tiles(rs[..|rs| - 1], 0, rs[|rs| - 1].lo)
  {
    forall k | 0 <= k < |rs| - 1 ensures rs[k].hi < rs[|rs| - 1].lo {
      TilesOrder(rs, to, k, |rs| - 1);
    }
  }

  /** The size of a grouping is the whole span less what its open gaps leave out. */
  lemma {:induction false} TotalIsSpanLessSaved(a: seq<int>, rs: seq<Range>, to: nat)
    requires Increasing(a) && 0 < to <= |a| && Tiles(rs, 0, to)
    ensures RangeTotal(Flat(a, rs), |rs|) == a[to - 1] - a[0] + 1 - Saved(a, Starts(rs), to)
    ensures Cuts(Starts(rs), to) == |rs| - 1
    decreases |rs|
  {
    var n := |rs| - 1;
    FlatEnds(a, rs, n);
    if n == 0 {
      assert Starts(rs) == {};
      SavedFlat(a, {}, 1, to);
      assert RangeTotal(Flat(a, rs), 0) == 0;
    } else {
      LastTotal(a, rs, to);
      LastStart(a, rs, to);
      TilesPrefix(rs, to);
      TotalIsSpanLessSaved(a, rs[..n], rs[n].lo);
    }
  }

  lemma LastTotal(a: seq<int>, rs: seq<Range>, to: nat)
    requires Increasing(a) && 0 < to <= |a| && Tiles(rs, 0, to) && |rs| > 1
    ensures var n := |rs| - 1;
      RangeTotal(Flat(a, rs), |rs|) == RangeTotal(Flat(a, rs[..n]), n) + a[to - 1] - a[rs[n].lo] + 1
  {
    hide Flat, Tiles, Increasing, Lo, Hi;
    var n := |rs| - 1;
    LastTwo(a, rs, to);
    FlatPrefix(a, rs, n);
    FlatEnds(a, rs, n);
    FlatEnds(a, rs, n - 1);
  }

  lemma LastTwo(a: seq<int>, rs: seq<Range>, to: nat)
    requires Increasing(a) && 0 < to <= |a| && Tiles(rs, 0, to) && |rs| > 1
    ensures forall k :: 0 <= k < |rs| ==> rs[k].lo < |a| && rs[k].hi < |a|
    ensures var n := |rs| - 1; rs[n].hi == to - 1 && a[rs[n - 1].hi] < a[rs[n].lo]
  {
  }

  lemma FlatPrefix(a: seq<int>, rs: seq<Range>, n: nat)
    requires (forall k :: 0 <= k < |rs| ==> rs[k].lo < |a| && rs[k].hi < |a|) && n <= |rs|
    ensures RangeTotal(Flat(a, rs), n) == RangeTotal(Flat(a, rs[..n]), n)
  {
    TotalPrefix(Flat(a, rs), Flat(a, rs[..n]), n);
  }

  lemma {:induction false} TotalPrefix(d: seq<int>, d': seq<int>, n: nat)
    requires 2 * n <= |d'| <= |d| && forall i :: 0 <= i < 2 * n ==> d[i] == d'[i]
    ensures RangeTotal(d, n) == RangeTotal(d', n)
  {
    if n > 0 {
      TotalPrefix(d, d', n - 1);
      assert Lo(d, n - 1) == Lo(d', n - 1) && Hi(d, n - 1) == Hi(d', n - 1);
      if n > 1 { assert Hi(d, n - 2) == Hi(d', n - 2); }
    }
  }

  lemma LastStart(a: seq<int>, rs: seq<Range>, to: nat)
    requires 1 < |rs| && to <= |a| && Tiles(rs, 0, to)
    ensures var last, rs' := rs[|rs| - 1], rs[..|rs| - 1];
            && 0 < last.lo < |a|
            && Saved(a, Starts(rs), to) == Saved(a, Starts(rs'), last.lo) + GapAt(a, last.lo) - 1
            && Cuts(Starts(rs), to) == Cuts(Starts(rs'), last.lo) + 1
  {
    var last, rs' := rs[|rs| - 1], rs[..|rs| - 1];
    var s, s' := Starts(rs), Starts(rs');
    forall j | 1 <= j < last.lo ensures j in s <==> j in s' {
      if j in s {
        var k :| 0 < k < |rs| && rs[k].lo == j;
        assert k < |rs'| && rs'[k].lo == j;
      }
      if j in s' {
        var k :| 0 < k < |rs'| && rs'[k].lo == j;
        assert rs[k].lo == j;
      }
    }
    SavedAgree(a, s, s', last.lo);
    forall j | last.lo + 1 <= j < to ensures j !in s {
      if j in s {
        var k :| 0 < k < |rs| && rs[k].lo == j;
        if k < |rs| - 1 { TilesOrder(rs, to, k, |rs| - 1); }
      }
    }
    SavedFlat(a, s, last.lo + 1, to);
    assert last.lo in s by { assert rs[|rs| - 1].lo == last.lo; }
  }

  /** With w between the closed and the open gaps of s, no other choice t of
      cuts saves more per cut. */
  lemma {:induction false} SavedByThreshold(a: seq<int>, s: set<nat>, t: set<nat>, n: nat, w: int)
    requires n <= |a|
    requires forall j :: 1 <= j < n ==> if j in s then GapAt(a, j) >= w else GapAt(a, j) <= w
    ensures Saved(a, s, n) - Saved(a, t, n) >= (w - 1) * (Cuts(s, n) - Cuts(t, n))
  {
    if n > 1 {
      SavedByThreshold(a, s, t, n - 1, w);
      assert (w - 1) * (Cuts(s, n - 1) + 1 - Cuts(t, n - 1)) == (w - 1) * (Cuts(s, n - 1) - Cuts(t, n - 1)) + (w - 1);
      assert (w - 1) * (Cuts(s, n - 1) - Cuts(t, n - 1) - 1) == (w - 1) * (Cuts(s, n - 1) - Cuts(t, n - 1)) - (w - 1);
    }
  }

  lemma WidthsSplit(a: seq<int>, rs: seq<Range>, w: int, j: nat)
    requires Tiles(rs, 0, |a|) && ClosedAtMost(a, rs, w) && OpenAtLeast(a, rs, w) && 1 <= j < |a|
    ensures if j in Starts(rs) then GapAt(a, j) >= w else GapAt(a, j) <= w
  {
    var k := TilesFind(rs, |a|, j);
    if j in Starts(rs) {
      var l :| 0 < l < |rs| && rs[l].lo == j;
    } else {
      assert k > 0 ==> rs[k].lo in Starts(rs);
      assert rs[k].lo < j <= rs[k].hi;
    }
  }

  /** Among all groupings of the elements into at most as many ranges, the
      compressed key expands to the fewest integers. */
  lemma CompressedIsSmallest(a: seq<int>, rs: seq<Range>, w: int, other: seq<Range>)
    requires Increasing(a) && a != [] && Tiles(rs, 0, |a|) && Tiles(other, 0, |a|) && |other| <= |rs|
    requires 1 <= w && ClosedAtMost(a, rs, w) && OpenAtLeast(a, rs, w)
    ensures RangeTotal(Flat(a, rs), |rs|) <= RangeTotal(Flat(a, other), |other|)
  {
    hide Starts, Flat, Saved, Cuts, RangeTotal, ClosedAtMost, OpenAtLeast, Tiles, Increasing;
    var s, t := Starts(rs), Starts(other);
    TotalIsSpanLessSaved(a, rs, |a|);
    TotalIsSpanLessSaved(a, other, |a|);
    WidthsSplitAll(a, rs, w);
    SavedByThreshold(a, s, t, |a|, w);
    NonNegativeProduct(w - 1, Cuts(s, |a|) - Cuts(t, |a|));
  }

  lemma WidthsSplitAll(a: seq<int>, rs: seq<Range>, w: int)
    requires Tiles(rs, 0, |a|) && ClosedAtMost(a, rs, w) && OpenAtLeast(a, rs, w)
    ensures forall j :: 1 <= j < |a| ==> if j in Starts(rs) then GapAt(a, j) >= w else GapAt(a, j) <= w
  {
    hide *;
    forall j | 1 <= j < |a| ensures if j in Starts(rs) then GapAt(a, j) >= w else GapAt(a, j) <= w {
      WidthsSplit(a, rs, w, j);
    }
  }

  lemma NonNegativeProduct(x: int, y: int)
    requires x >= 0 && y >= 0
    ensures x * y >= 0
  {
  }

  // ----- decompression -----------------------------------------------------

  /** What reading a key comes to. OutOfArray stands for a key of odd length read
      as ranges, whose last bound lies outside the array. */
  datatype Expanded = Elements(elems: seq<int>) | TooBigError | Overflow | OutOfArray

  function Ints(lo: int, hi: int): seq<int>
    requires lo <= hi
  {
    seq(hi - lo + 1, i => lo + i)
  }

  /** The integers of the first k ranges. */
  function Expand(d: seq<int>, k: nat): seq<int>
    requires Ascending(d) && k <= |d| / 2
  {
    if k == 0 then [] else Expand(d, k - 1) + Ints(Lo(d, k - 1), Hi(d, k - 1))
  }

  /** A key as it may be stored: sorted, or ascending ranges when it is long. */
  predicate Storable(d: seq<int>) {
    && (forall x :: x in d ==> INT32_MIN <= x <= INT32_MAX)
    && if |d| < 2 * MAXNUMRANGE then Increasing(d) else |d| % 2 == 0 ==> Ascending(d)
  }

  /** Reading takes every key of 200 numbers or more for ranges. */
  function Read(d: seq<int>): Expanded
    requires Storable(d)
  {
    if |d| < 2 * MAXNUMRANGE then Elements(d)
    else if |d| % 2 == 1 then OutOfArray
    else if TooSparse(d) then TooBigError
    else if d[|d| - 1] == INT32_MAX then Overflow
    else Elements(Expand(d, |d| / 2))
  }

  lemma {:induction false} ExpandIs(d: seq<int>, k: nat)
    requires Ascending(d) && k <= |d| / 2
    ensures ExpandedUpTo(Expand(d, k), d, k) && |Expand(d, k)| == RangeTotal(d, k)
  {
    if k > 0 {
      ExpandIs(d, k - 1);
      TotalMonotone(d, k, k);
      hide Ascending, RangeTotal, ExpandedUpTo;
      ExpandedMore(Expand(d, k - 1), Expand(d, k), d, k - 1);
    }
  }

  /** A read key is sorted and has exactly the integers in its ranges. */
  lemma ReadIs(d: seq<int>)
    requires Storable(d) && Read(d).Elements?
    ensures Increasing(Read(d).elems)
    ensures |d| >= 2 * MAXNUMRANGE ==>
      Ascending(d) && |Read(d).elems| == RangeTotal(d, |d| / 2) && forall x :: x in Read(d).elems <==> InRanges(d, x)
  {
    if |d| >= 2 * MAXNUMRANGE {
      ExpandIs(d, |d| / 2);
      AllExpanded(Expand(d, |d| / 2), d);
    }
  }

  /** Expands a key as it is read. The inner loop's counter is an int, so a
      range that ends at the largest int makes it overflow. */
  method Decompress(d: seq<int>) returns (r: Expanded)
    requires Storable(d)
    ensures r == Read(d)
  {
    if |d| < 2 * MAXNUMRANGE {
      return Elements(d);
    }
    if |d| % 2 == 1 {
      return OutOfArray;
    }
    var lenr := InternalSize(d);
    if lenr < 0 || lenr > MAXNUMELTS {
      return TooBigError;
    }
    hide RangeTotal, Increasing, InRanges, Expand;
    r := ExpandAll(d, lenr);
    if r.Elements? {
      ReadIs(d);
      assert forall x :: x in r.elems <==> x in Read(d).elems;
      assert Elems(r.elems) == Elems(Read(d).elems);
      SameElems(r.elems, Read(d).elems);
    }
  }

  method ExpandAll(d: seq<int>, lenr: nat) returns (r: Expanded)
    requires Ascending(d) && |d| >= 2 && lenr == RangeTotal(d, |d| / 2)
    requires forall x :: x in d ==> INT32_MIN <= x <= INT32_MAX
    ensures d[|d| - 1] == INT32_MAX ==> r == Overflow
    ensures d[|d| - 1] != INT32_MAX ==>
              && r.Elements? && Increasing(r.elems) && |r.elems| == RangeTotal(d, |d| / 2)
              && forall x :: x in r.elems <==> InRanges(d, x)
  {
    var dr := new int[lenr];
    var n, k := 0, 0;
    assert dr[..n] == [];
    hide RangeTotal, ExpandedUpTo, Increasing, InRanges;
    assert |d| % 2 == 0;
    hide Ascending;
    NoTotal(d);
    NoneExpanded(d);
    while 2 * k < |d|
      invariant 0 <= k <= |d| / 2 && 0 <= n == RangeTotal(d, k) <= lenr
      invariant ExpandedUpTo(dr[..n], d, k)
      invariant k > 0 ==> Hi(d, k - 1) != INT32_MAX
    {
      TotalMonotone(d, k + 1, |d| / 2);
      HalfOf(k);
      var ok;
      n, ok := ExpandOne(dr, n, d, 2 * k);
      if !ok {
        LastIsLargest(d, k);
        return Overflow;
      }
      k := k + 1;
    }
    AllExpanded(dr[..n], d);
    return Elements(dr[..n]);
  }

  lemma HalfOf(k: nat)
    ensures 2 * k / 2 == k && 2 * k % 2 == 0
  {
  }

  lemma NoneExpanded(d: seq<int>)
    ensures ExpandedUpTo([], d, 0)
  {
  }

  lemma NoTotal(d: seq<int>)
    ensures RangeTotal(d, 0) == 0
  {
  }

  lemma AllExpanded(s: seq<int>, d: seq<int>)
    requires Ascending(d) && ExpandedUpTo(s, d, |d| / 2)
    ensures Increasing(s) && forall x :: x in s <==> InRanges(d, x)
  {
  }

  /** s lists, in order, the integers of the first k ranges. */
  ghost predicate ExpandedUpTo(s: seq<int>, d: seq<int>, k: nat)
    requires 2 * k <= |d|
  {
    Increasing(s) && forall x :: x in s <==> exists l :: 0 <= l < k && Lo(d, l) <= x <= Hi(d, l)
  }

  lemma {:induction false} TotalMonotone(d: seq<int>, k: nat, m: nat)
    requires Ascending(d) && k <= m <= |d| / 2
    ensures RangeTotal(d, k) <= RangeTotal(d, m)
    ensures k > 0 ==> RangeTotal(d, k) == RangeTotal(d, k - 1) + Hi(d, k - 1) - Lo(d, k - 1) + 1
    ensures k > 0 ==> RangeTotal(d, k - 1) < RangeTotal(d, k) && Lo(d, k - 1) <= Hi(d, k - 1)
    decreases m
  {
    if k > 1 { assert Hi(d, k - 2) < Lo(d, k - 1); }
    if k < m {
      assert Lo(d, m - 1) <= Hi(d, m - 1);
      TotalMonotone(d, k, m - 1);
    }
  }

  lemma LastIsLargest(d: seq<int>, k: nat)
    requires Ascending(d) && k < |d| / 2 && Hi(d, k) == INT32_MAX && forall x :: x in d ==> x <= INT32_MAX
    ensures d[|d| - 1] == INT32_MAX
  {
    var l := |d| / 2 - 1;
    assert d[|d| - 1] == Hi(d, l);
    if k < l { LaterIsAbove(d, k, l); }
  }

  lemma LaterIsAbove(d: seq<int>, k: nat, l: nat)
    requires Ascending(d) && k < l < |d| / 2
    ensures Hi(d, k) < Lo(d, l) && Lo(d, l) in d
  {
  }

  /** Appends the integers of the range at d[i], d[i + 1]. */
  method ExpandOne(dr: array<int>, n0: nat, d: seq<int>, i: nat) returns (n: nat, ok: bool)
    requires Ascending(d) && i % 2 == 0 && i + 1 < |d| && forall x :: x in d ==> INT32_MIN <= x <= INT32_MAX
    requires d[i] <= d[i + 1] && n0 + d[i + 1] - d[i] + 1 <= dr.Length && ExpandedUpTo(dr[..n0], d, i / 2)
    modifies dr
    ensures ok <==> d[i + 1] != INT32_MAX
    ensures ok ==> n == n0 + d[i + 1] - d[i] + 1 && ExpandedUpTo(dr[..n], d, i / 2 + 1)
  {
    hide ExpandedUpTo;
    ghost var before := dr[..n0];
    EarlierIsSmaller(before, d, i / 2);
    var j := d[i];
    n := n0;
    while j <= d[i + 1]
      invariant d[i] <= j <= d[i + 1] + 1 && n == n0 + (j - d[i])
      invariant forall k :: 0 <= k < n0 ==> dr[k] == before[k]
      invariant forall k :: n0 <= k < n ==> dr[k] == d[i] + (k - n0)
      invariant j > d[i] ==> j - 1 != INT32_MAX
    {
      if i == 0 || dr[n - 1] != j {
        dr[n] := j;
        n := n + 1;
      }
      if j == INT32_MAX {
        assert d[i + 1] in d;
        return n, false;
      }
      j := j + 1;
    }
    ExpandedMore(before, dr[..n], d, i / 2);
    return n, true;
  }

  /** What is already expanded lies below the next range. */
  lemma EarlierIsSmaller(s: seq<int>, d: seq<int>, k: nat)
    requires Ascending(d) && k < |d| / 2 && ExpandedUpTo(s, d, k)
    ensures (forall m :: 0 <= m < |s| ==> s[m] < Lo(d, k)) && (k > 0 ==> s != [])
  {
    forall m | 0 <= m < |s| ensures s[m] < Lo(d, k) {
      assert s[m] in s;
      var l :| 0 <= l < k && Lo(d, l) <= s[m] <= Hi(d, l);
      assert Hi(d, l) < Lo(d, k);
    }
    if k > 0 {
      assert Lo(d, 0) <= Hi(d, 0);
      assert Lo(d, 0) in s;
    }
  }

  lemma ExpandedMore(s: seq<int>, s': seq<int>, d: seq<int>, k: nat)
    requires Ascending(d) && k < |d| / 2 && ExpandedUpTo(s, d, k)
    requires |s'| == |s| + Hi(d, k) - Lo(d, k) + 1
    requires forall m :: 0 <= m < |s| ==> s'[m] == s[m]
    requires forall m :: |s| <= m < |s'| ==> s'[m] == Lo(d, k) + (m - |s|)
    ensures ExpandedUpTo(s', d, k + 1)
  {
    EarlierIsSmaller(s, d, k);
    forall x ensures x in s' <==> exists l :: 0 <= l < k + 1 && Lo(d, l) <= x <= Hi(d, l) {
      if x in s' {
        var m :| 0 <= m < |s'| && s'[m] == x;
        if m < |s| {
          assert x in s;
          var l :| 0 <= l < k && Lo(d, l) <= x <= Hi(d, l);
        } else {
          assert Lo(d, k) <= x <= Hi(d, k);
        }
      }
      if l :| 0 <= l < k + 1 && Lo(d, l) <= x <= Hi(d, l) {
        if l < k {
          assert x in s;
          var m :| 0 <= m < |s| && s[m] == x;
          assert s'[m] == x;
        } else {
          assert s'[|s| + (x - Lo(d, k))] == x;
        }
      }
    }
  }
}
