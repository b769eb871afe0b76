/**
 The GiST index over integer arrays: keys of inner nodes are unions, compressed
 to ranges and expanded when read, and a search descends only where the key is
 consistent with the query.
 */
module IntGist {
  import opened IntSets
  import opened IntRanges
  import opened IntQuery
  import opened GistSplit

  // ----- keys of inner nodes -----------------------------------------------

  function InsertSorted(s: seq<int>, x: int): (r: seq<int>)
    requires Sorted(s)
    ensures Sorted(r) && |r| == |s| + 1 && forall y :: y in r <==> y in s || y == x
  {
    if s == [] || s[|s| - 1] <= x then s + [x]
    else
      var r := InsertSorted(s[..|s| - 1], x);
      LastOfSorted(s);
      SortedSnoc(r, s[|s| - 1]);
      r + [s[|s| - 1]]
  }

  lemma LastOfSorted(s: seq<int>)
    requires Sorted(s) && s != []
    ensures s == s[..|s| - 1] + [s[|s| - 1]] && forall z :: z in s ==> z <= s[|s| - 1]
  {
  }

  lemma SortedSnoc(r: seq<int>, y: int)
    requires Sorted(r) && forall z :: z in r ==> z <= y
    ensures Sorted(r + [y])
  {
    forall k | 0 <= k < |r| ensures r[k] <= y {
      assert r[k] in r;
    }
  }

  /** The elements in ascending order; stands for the library's qsort. */
  function Sort(s: seq<int>): (r: seq<int>)
    ensures Sorted(r) && |r| == |s| && forall y :: y in r <==> y in s
  {
    if s == [] then [] else
      assert s == s[..|s| - 1] + [s[|s| - 1]];
      InsertSorted(Sort(s[..|s| - 1]), s[|s| - 1])
  }

  /** The union of the entries' keys: copied together, sorted, made unique. */
  method GIntUnion(entries: seq<seq<int>>) returns (r: seq<int>)
    ensures Increasing(r)
    ensures forall x :: x in r <==> exists k :: 0 <= k < |entries| && x in entries[k]
  {
    var all := [];
    for i := 0 to |entries|
      invariant forall x :: x in all <==> exists k :: 0 <= k < i && x in entries[k]
    {
      all := all + entries[i];
    }
    var sorted := Sort(all);
    var a := new int[|sorted|];
    forall k | 0 <= k < |sorted| {
      a[k] := sorted[k];
    }
    assert a[..] == sorted;
    var n := IntUnique(a);
    r := a[..n];
  }

  /** l has the elements of the seed's key and of the keys sent to it. */
  ghost predicate UnionOf(l: seq<int>, keys: seq<seq<int>>, seed: nat, sent: seq<nat>)
    requires seed < |keys| && forall i :: i in sent ==> i < |keys|
  {
    Increasing(l) && forall x :: x in l <==> x in keys[seed] || exists i :: i in sent && x in keys[i]
  }

  lemma UnionGrows(l: seq<int>, l': seq<int>, keys: seq<seq<int>>, seed: nat, sent: seq<nat>, i: nat)
    requires seed < |keys| && i < |keys| && (forall j :: j in sent ==> j < |keys|) && UnionOf(l, keys, seed, sent)
    requires Increasing(l') && Elems(l') == Elems(l) + Elems(keys[i])
    ensures UnionOf(l', keys, seed, sent + [i])
  {
    assert forall x :: x in l' <==> x in Elems(l');
    forall x ensures x in l' <==> x in keys[seed] || exists j :: j in sent + [i] && x in keys[j] {
      if x in keys[i] { assert i in sent + [i]; }
      if j :| j in sent && x in keys[j] { assert j in sent + [i]; }
      if j :| j in sent + [i] && x in keys[j] { assert j in sent || j == i; }
    }
  }

  lemma UnionSame(l: seq<int>, keys: seq<seq<int>>, seed: nat, sent: seq<nat>)
    requires seed < |keys| && (forall j :: j in sent ==> j < |keys|) && UnionOf(l, keys, seed, sent)
    ensures UnionOf(l, keys, seed, sent + [seed])
  {
    forall x ensures x in l <==> x in keys[seed] || exists j :: j in sent + [seed] && x in keys[j] {
      if j :| j in sent && x in keys[j] { assert j in sent + [seed]; }
      if j :| j in sent + [seed] && x in keys[j] { assert j in sent || j == seed; }
    }
  }

  /** Sends each key, in the order of the costs, to the half that costs say, the seeds
      to their own. The halves partition the keys, neither is empty, and each union has
      exactly the elements of its half. */
  method GIntPickSplit(keys: seq<seq<int>>, seed1: nat, seed2: nat, order: seq<nat>, toLeft: seq<bool>)
    returns (left: seq<nat>, right: seq<nat>, l: seq<int>, r: seq<int>)
    requires IsOrder(order, |keys|) && |toLeft| == |keys| && seed1 < |keys| && seed2 < |keys| && seed1 != seed2
    requires forall i :: 0 <= i < |keys| ==> Increasing(keys[i])
    ensures Halves(left, right, order, seed1, seed2) && forall i :: i in left || i in right ==> i < |keys|
    ensures UnionOf(l, keys, seed1, left) && UnionOf(r, keys, seed2, right)
  {
    hide HalvesTo, UnionOf, Increasing;
    left, right, l, r := [], [], keys[seed1], keys[seed2];
    NoHalves(order, seed1, seed2);
    UnionStart(keys, seed1);
    UnionStart(keys, seed2);
    for k := 0 to |keys|
      invariant HalvesTo(left, right, order, seed1, seed2, k)
      invariant forall i :: i in left || i in right ==> i < |keys|
      invariant UnionOf(l, keys, seed1, left) && UnionOf(r, keys, seed2, right)
    {
      var i := order[k];
      if i == seed1 {
        ToLeft(left, right, order, seed1, seed2, k);
        UnionSame(l, keys, seed1, left);
        left := left + [i];
      } else if i == seed2 {
        ToRight(left, right, order, seed1, seed2, k);
        UnionSame(r, keys, seed2, right);
        right := right + [i];
      } else if toLeft[k] {
        UnionIncreasing(l, keys, seed1, left);
        var union := InnerUnion(l, keys[i]);
        ToLeft(left, right, order, seed1, seed2, k);
        UnionGrows(l, union, keys, seed1, left, i);
        l, left := union, left + [i];
      } else {
        UnionIncreasing(r, keys, seed2, right);
        var union := InnerUnion(r, keys[i]);
        ToRight(left, right, order, seed1, seed2, k);
        UnionGrows(r, union, keys, seed2, right, i);
        r, right := union, right + [i];
      }
    }
    AllHalves(left, right, order, seed1, seed2);
  }

  lemma UnionStart(keys: seq<seq<int>>, seed: nat)
    requires seed < |keys| && Increasing(keys[seed])
    ensures UnionOf(keys[seed], keys, seed, [])
  {
  }

  lemma UnionIncreasing(l: seq<int>, keys: seq<seq<int>>, seed: nat, sent: seq<nat>)
    requires seed < |keys| && (forall i :: i in sent ==> i < |keys|) && UnionOf(l, keys, seed, sent)
    ensures Increasing(l)
  {
  }

  predicate Int32(s: seq<int>) {
    forall x :: x in s ==> INT32_MIN <= x <= INT32_MAX
  }

  /** The key of an inner node: the union of its entries, compressed when it is
      stored and expanded when it is read. */
  method InnerKey(entries: seq<seq<int>>)
    returns (stored: KeyResult, seen: Expanded, ghost u: seq<int>, ghost rs: seq<Range>)
    requires forall k :: 0 <= k < |entries| ==> Int32(entries[k])
    ensures Increasing(u) && forall x :: x in u <==> exists k :: 0 <= k < |entries| && x in entries[k]
    ensures StoredFrom(stored, u, rs) && (stored.Key? ==> Storable(stored.elems) && seen == Read(stored.elems))
    ensures stored.Key? ==> (seen.Elements? || seen == Overflow)
    ensures stored.Key? ==> (seen == Overflow <==> |u| >= 2 * MAXNUMRANGE && INT32_MAX in u)
    ensures seen.Elements? ==> forall k, x :: 0 <= k < |entries| && x in entries[k] ==> x in seen.elems
  {
    var union := GIntUnion(entries);
    u := union;
    assert Int32(u);
    ghost var w;
    stored, rs, w := Compress(union);
    seen := TooBigError;
    if stored.Key? {
      StoredIsRead(stored, u, rs);
      seen := Decompress(stored.elems);
    }
  }

  /** What is stored: a short union itself, and the 100 ranges of a long one,
      unless they hold too many integers. */
  ghost predicate StoredFrom(stored: KeyResult, u: seq<int>, rs: seq<Range>)
    requires Increasing(u)
  {
    if |u| < 2 * MAXNUMRANGE then stored == Key(u)
    else
      && Tiles(rs, 0, |u|) && |rs| == MAXNUMRANGE
      && stored == if TooSparse(Flat(u, rs)) then TooSparseError else Key(Flat(u, rs))
  }

  lemma StoredIsRead(stored: KeyResult, u: seq<int>, rs: seq<Range>)
    requires Increasing(u) && Int32(u) && StoredFrom(stored, u, rs) && stored.Key?
    ensures Storable(stored.elems)
    ensures var seen := Read(stored.elems);
      && (seen.Elements? || seen == Overflow) && (seen == Overflow <==> |u| >= 2 * MAXNUMRANGE && INT32_MAX in u)
      && (seen.Elements? ==> forall x :: x in u ==> x in seen.elems)
  {
    if |u| >= 2 * MAXNUMRANGE {
      CompressedAscends(u, rs);
      CompressedCovers(u, rs);
      LastBound(u, rs);
      hide Flat, Tiles, InRanges, Increasing, Ascending, TooSparse;
      if Read(stored.elems).Elements? { ReadIs(stored.elems); }
    }
  }

  /** The last bound is the largest element. */
  lemma LastBound(u: seq<int>, rs: seq<Range>)
    requires Increasing(u) && Int32(u) && Tiles(rs, 0, |u|) && rs != []
    ensures var d := Flat(u, rs); d[|d| - 1] == INT32_MAX <==> INT32_MAX in u
  {
    var d := Flat(u, rs);
    FlatEnds(u, rs, |rs| - 1);
    assert d[|d| - 1] == u[|u| - 1];
    assert u[|u| - 1] in u;
  }

  // ----- leaves of 200 elements or more ------------------------------------

  /** The elements pair up into neighbours. */
  predicate Paired(a: seq<int>)
    requires |a| % 2 == 0
  {
    forall k :: 0 <= k < |a| / 2 ==> Hi(a, k) == Lo(a, k) + 1
  }

  lemma PairedIff(a: seq<int>)
    requires Increasing(a) && |a| % 2 == 0
    ensures (forall x :: InRanges(a, x) <==> x in a) <==> Paired(a)
    ensures forall x :: x in a ==> InRanges(a, x)
  {
    forall x | x in a ensures InRanges(a, x) {
      var i :| 0 <= i < |a| && a[i] == x;
      assert Lo(a, i / 2) <= x <= Hi(a, i / 2);
    }
    if !Paired(a) {
      var k :| 0 <= k < |a| / 2 && Hi(a, k) != Lo(a, k) + 1;
      var x := Lo(a, k) + 1;
      assert Lo(a, k) < Hi(a, k);
      assert InRanges(a, x);
      forall i | 0 <= i < |a| ensures a[i] != x {
        assert i <= 2 * k ==> a[i] <= Lo(a, k);
        assert i > 2 * k ==> a[i] >= Hi(a, k);
      }
    }
  }

  lemma {:induction false} PairedTotal(a: seq<int>, k: nat)
    requires Increasing(a) && |a| % 2 == 0 && Paired(a) && k <= |a| / 2
    ensures RangeTotal(a, k) == 2 * k
  {
    if k > 0 { PairedTotal(a, k - 1); }
  }

  /** A leaf array is stored as it is, but reading takes 200 elements or more for
      ranges. */
  predicate ReadsItself(row: seq<int>) {
    |row| < 2 * MAXNUMRANGE ||
    (|row| % 2 == 0 && |row| <= MAXNUMELTS && row[|row| - 1] != INT32_MAX && Paired(row))
  }

  lemma RowStorable(row: seq<int>)
    requires Increasing(row) && Int32(row)
    ensures Storable(row)
  {
  }

  /** A stored leaf array is read as itself exactly when it is short or made of
      pairs of neighbours below the largest int. Otherwise reading fails or gives
      further elements, and an odd number of elements always fails. */
  lemma LeafReadBackIff(row: seq<int>)
    requires Increasing(row) && Int32(row)
    ensures Storable(row) && (Read(row) == Elements(row) <==> ReadsItself(row))
    ensures Read(row).Elements? ==> Elems(row) <= Elems(Read(row).elems)
    ensures Read(row) == OutOfArray <==> |row| >= 2 * MAXNUMRANGE && |row| % 2 == 1
  {
    RowStorable(row);
    if |row| >= 2 * MAXNUMRANGE && |row| % 2 == 0 {
      PairedIff(row);
      if Paired(row) { PairedTotal(row, |row| / 2); }
      if Read(row).Elements? {
        ReadIs(row);
        hide Expand, Paired;
        SameElems(Read(row).elems, row);
        if Read(row).elems == row {
          assert forall x :: InRanges(row, x) <==> x in row;
          PairedTotal(row, |row| / 2);
        }
      }
    }
  }

  // ----- searching ---------------------------------------------------------

  datatype Search =
    | Overlap(arr: seq<int>)
    | Same(arr: seq<int>)
    | Contains(arr: seq<int>)
    | ContainedBy(arr: seq<int>)
    | Boolean(items: seq<Item>, query: Query)

  /** The query array is sorted and unique; a boolean query is linked. */
  ghost predicate ValidSearch(s: Search) {
    match s
    case Overlap(a) => Increasing(a)
    case Same(a) => Increasing(a)
    case Contains(a) => Increasing(a)
    case ContainedBy(a) => Increasing(a)
    case Boolean(items, q) => items != [] && LinkedEnd(items, |items| - 1, q)
  }

  /** The links of a boolean query are its tree's. */
  predicate TrueLinks(s: Search) {
    s.Boolean? ==> RightOperandsFit(s.query)
  }

  /** The operator itself, on the row's array as a set. */
  ghost predicate Matches(row: set<int>, s: Search) {
    match s
    case Overlap(a) => row * Elems(a) != {}
    case Same(a) => row == Elems(a)
    case Contains(a) => Elems(a) <= row
    case ContainedBy(a) => row <= Elems(a)
    case Boolean(items, q) => Eval(q, v => v in row)
  }

  /** Binary search of a value in a sorted key. */
  method CheckConditionArr(a: seq<int>, val: int) returns (found: bool)
    requires Increasing(a)
    ensures found <==> val in a
  {
    var stopLow, stopHigh := 0, |a|;
    while stopLow < stopHigh
      invariant 0 <= stopLow <= stopHigh <= |a|
      invariant forall k :: 0 <= k < stopLow || stopHigh <= k < |a| ==> a[k] != val
    {
      var stopMiddle := stopLow + (stopHigh - stopLow) / 2;
      if a[stopMiddle] == val {
        return true;
      } else if a[stopMiddle] < val {
        stopLow := stopMiddle + 1;
      } else {
        stopHigh := stopMiddle;
      }
    }
    return false;
  }

  /** Whether two sorted arrays hold the same elements, compared one by one. */
  method GIntSame(a: seq<int>, b: seq<int>) returns (same: bool)
    ensures same <==> a == b
  {
    if |a| != |b| {
      return false;
    }
    for n := 0 to |a|
      invariant a[..n] == b[..n]
    {
      if a[n] != b[n] {
        return false;
      }
    }
    return true;
  }

  /** What the consistency function answers for a key. */
  ghost predicate Consistent(key: seq<int>, s: Search, leaf: bool) {
    if leaf then Matches(Elems(key), s)
    else match s
         case Overlap(a) => Elems(key) * Elems(a) != {}
         case Same(a) => Elems(a) <= Elems(key)
         case Contains(a) => Elems(a) <= Elems(key)
         case ContainedBy(a) => true
         case Boolean(items, q) => EvalLossy(q, v => v in key)
  }

  /** Evaluates a query with a binary search of the key for each value. */
  method ExecuteOn(items: seq<Item>, cur: int, calcnot: bool, key: seq<int>, ghost chk: (int, int) -> bool)
    returns (r: Option<bool>)
    requires 0 <= cur < |items| && Increasing(key) && forall i, v :: chk(i, v) <==> v in key
    ensures r == Execute(items, cur, calcnot, chk)
    decreases cur
  {
    hide Increasing;
    match items[cur].node
    case NVal(v) =>
      var found := CheckConditionArr(key, v);
      return Some(found);
    case NOpr(op) =>
      if op == '!' {
        if !calcnot { return Some(true); }
        if cur == 0 { return None; }
        r := ExecuteOn(items, cur - 1, calcnot, key, chk);
        return if r.None? then None else Some(!r.value);
      }
      if !(0 <= cur + items[cur].left < cur) { return None; }
      r := ExecuteOn(items, cur + items[cur].left, calcnot, key, chk);
      if r.Some? && r.value == (op == '&') {
        r := ExecuteOn(items, cur - 1, calcnot, key, chk);
      }
  }

  /** Answers by strategy; None when evaluation leaves the items of the query. */
  method GIntConsistent(key: seq<int>, s: Search, leaf: bool) returns (r: Option<bool>)
    requires Increasing(key) && ValidSearch(s)
    ensures s.Boolean? ==> r == Execute(s.items, |s.items| - 1, leaf, RowCheck(v => v in key))
    ensures TrueLinks(s) ==> r == Some(Consistent(key, s, leaf))
  {
    match s {
      case Boolean(items, q) =>
        ghost var holds := v => v in key;
        if RightOperandsFit(q) {
          ExecuteMeansEval(items, |items| - 1, q, leaf, RowCheck(holds), holds);
          SameEval(q, holds, v => v in Elems(key));
          SameEval(q, holds, v => v in key);
        }
        r := ExecuteOn(items, |items| - 1, leaf, key, RowCheck(holds));
        ExecuteSame(items, |items| - 1, leaf, RowCheck(holds), RowCheck(v => v in key));
      case _ =>
        var answer := ArrayConsistent(key, s, leaf);
        return Some(answer);
    }
  }

  method ArrayConsistent(key: seq<int>, s: Search, leaf: bool) returns (r: bool)
    requires Increasing(key) && ValidSearch(s) && !s.Boolean?
    ensures r == Consistent(key, s, leaf)
  {
    match s {
      case Overlap(a) =>
        r := InnerOverlap(key, a);
      case Same(a) =>
        if leaf {
          r := GIntSame(key, a);
          SameElems(key, a);
        } else {
          r := InnerContains(key, a);
        }
      case Contains(a) =>
        r := InnerContains(key, a);
      case ContainedBy(a) =>
        if leaf {
          r := InnerContains(a, key);
        } else {
          r := true;
        }
    }
  }

  lemma {:induction false} SameEval(q: Query, f: int -> bool, g: int -> bool)
    requires forall v :: f(v) == g(v)
    ensures Eval(q, f) == Eval(q, g) && EvalLossy(q, f) == EvalLossy(q, g)
  {
    match q
    case Val(v) =>
    case Not(a) => SameEval(a, f, g);
    case And(l, r) => SameEval(l, f, g); SameEval(r, f, g);
    case Or(l, r) => SameEval(l, f, g); SameEval(r, f, g);
  }

  // ----- searches of a tree --------------------------------------------------

  /** Rows and keys as they are stored. */
  datatype Tree = Leaf(row: seq<int>) | Node(key: seq<int>, kids: seq<Tree>)

  function Stored(t: Tree): seq<int> {
    if t.Leaf? then t.row else t.key
  }

  /** Every inner key, as it is read, contains what is read of the keys below it,
      as InnerKey guarantees. */
  ghost predicate WellBuilt(t: Tree) {
    match t
    case Leaf(row) => Increasing(row) && Int32(row) && Storable(row)
    case Node(key, kids) =>
      && Storable(key) && (forall k :: 0 <= k < |kids| ==> WellBuilt(kids[k]))
      && (Read(key).Elements? ==> forall k :: 0 <= k < |kids| ==> Under(kids[k], Read(key).elems))
  }

  /** What is read of t, if anything, is in the key. */
  ghost predicate Under(t: Tree, key: seq<int>)
    requires Storable(Stored(t))
  {
    Read(Stored(t)).Elements? ==> Elems(Read(Stored(t)).elems) <= Elems(key)
  }

  /** What a search comes to; Broken when it meets a key that cannot be read. */
  datatype Outcome = Broken | Rows(rows: seq<seq<int>>)

  function Join(a: Outcome, b: Outcome): Outcome {
    if a.Broken? || b.Broken? then Broken else Rows(a.rows + b.rows)
  }

  /** A search reads each key it meets and descends where it is consistent. Only
      equality is checked again on the row itself. */
  ghost function Found(t: Tree, s: Search): Outcome
    requires WellBuilt(t)
  {
    if !Read(Stored(t)).Elements? then Broken
    else if !Consistent(Read(Stored(t)).elems, s, t.Leaf?) then Rows([])
    else match t
         case Leaf(row) => if s.Same? && !Matches(Elems(row), s) then Rows([]) else Rows([row])
         case Node(_, kids) => FoundIn(kids, s)
  }

  ghost function FoundIn(ts: seq<Tree>, s: Search): Outcome
    requires forall k :: 0 <= k < |ts| ==> WellBuilt(ts[k])
  {
    if ts == [] then Rows([]) else Join(Found(ts[0], s), FoundIn(ts[1..], s))
  }

  /** The rows that match, by looking at all of them. */
  ghost function Matching(t: Tree, s: Search): seq<seq<int>> {
    if t.Leaf? then (if Matches(Elems(t.row), s) then [t.row] else []) else MatchingIn(t.kids, s)
  }

  ghost function MatchingIn(ts: seq<Tree>, s: Search): seq<seq<int>> {
    if ts == [] then [] else Matching(ts[0], s) + MatchingIn(ts[1..], s)
  }

  /** Every key in the tree can be read. */
  ghost predicate Readable(t: Tree)
    requires WellBuilt(t)
  {
    Read(Stored(t)).Elements? && (t.Node? ==> forall k :: 0 <= k < |t.kids| ==> Readable(t.kids[k]))
  }

  /** Every inner key can be read, and every row is read as itself. */
  ghost predicate ReadsWell(t: Tree)
    requires WellBuilt(t)
  {
    match t
    case Leaf(row) => ReadsItself(row)
    case Node(key, kids) => Read(key).Elements? && forall k :: 0 <= k < |kids| ==> ReadsWell(kids[k])
  }

  /** A row below a node that matches makes the node's key consistent. */
  lemma ConsistentAbove(row: set<int>, key: seq<int>, s: Search)
    requires row <= Elems(key) && Matches(row, s)
    ensures Consistent(key, s, false)
  {
    if s.Boolean? {
      LossyKeepsAnswers(s.query, v => v in row, v => v in key);
    } else if s.Overlap? {
      var x := SomeElement(row * Elems(s.arr));
      assert x in Elems(key) * Elems(s.arr);
    }
  }

  lemma {:induction false} NothingMatches(t: Tree, key: seq<int>, s: Search)
    requires WellBuilt(t) && Readable(t) && Under(t, key) && !Consistent(key, s, false)
    ensures Matching(t, s) == []
    decreases t, 1
  {
    hide Matches, Consistent, Read;
    if t.Leaf? {
      LeafReadBackIff(t.row);
      if Matches(Elems(t.row), s) { ConsistentAbove(Elems(t.row), key, s); }
    } else {
      NothingMatchesIn(t.kids, key, s);
    }
  }

  lemma {:induction false} NothingMatchesIn(ts: seq<Tree>, key: seq<int>, s: Search)
    requires forall k :: 0 <= k < |ts| ==> WellBuilt(ts[k]) && Readable(ts[k]) && Under(ts[k], key)
    requires !Consistent(key, s, false)
    ensures MatchingIn(ts, s) == []
    decreases ts, 0
  {
    if ts != [] {
      NothingMatches(ts[0], key, s);
      NothingMatchesIn(ts[1..], key, s);
    }
  }

  lemma {:induction false} WellMeansReadable(t: Tree)
    requires WellBuilt(t) && ReadsWell(t)
    ensures Readable(t)
  {
    hide Read;
    match t
    case Leaf(row) => LeafReadBackIff(row);
    case Node(_, kids) =>
      forall k | 0 <= k < |kids| ensures Readable(kids[k]) {
        WellMeansReadable(kids[k]);
      }
  }

  lemma {:induction false} SearchIsExact(t: Tree, s: Search)
    requires WellBuilt(t) && ReadsWell(t)
    ensures Found(t, s) == Rows(Matching(t, s))
    decreases t, 1
  {
    hide Matches, Read, Storable;
    match t
    case Leaf(row) => LeafReadBackIff(row);
    case Node(key, kids) =>
      if Consistent(Read(key).elems, s, false) {
        SearchIsExactIn(kids, s);
      } else {
        WellMeansReadable(t);
        NothingMatchesIn(kids, Read(key).elems, s);
      }
  }

  lemma {:induction false} SearchIsExactIn(ts: seq<Tree>, s: Search)
    requires forall k :: 0 <= k < |ts| ==> WellBuilt(ts[k]) && ReadsWell(ts[k])
    ensures FoundIn(ts, s) == Rows(MatchingIn(ts, s))
    decreases ts, 0
  {
    if ts != [] {
      SearchIsExact(ts[0], s);
      SearchIsExactIn(ts[1..], s);
    }
  }

  // ----- and of a tree that does not read well ---------------------------------

  /** A search for what is contained in the empty array visits every key. */
  lemma {:induction false} AllVisited(t: Tree)
    requires WellBuilt(t) && !Readable(t)
    ensures Found(t, ContainedBy([])) == Broken
    decreases t, 1
  {
    hide Read, Storable;
    if t.Node? && Read(t.key).Elements? {
      var k :| 0 <= k < |t.kids| && !Readable(t.kids[k]);
      AllVisitedIn(t.kids, k);
    }
  }

  lemma {:induction false} AllVisitedIn(ts: seq<Tree>, k: nat)
    requires (forall k :: 0 <= k < |ts| ==> WellBuilt(ts[k])) && k < |ts| && !Readable(ts[k])
    ensures FoundIn(ts, ContainedBy([])) == Broken
    decreases ts, 0
  {
    if k == 0 { AllVisited(ts[0]); } else { AllVisitedIn(ts[1..], k - 1); }
  }

  /** Some row is read with x although it does not have it. */
  ghost predicate Gains(t: Tree, x: int)
    requires WellBuilt(t) && Readable(t)
  {
    match t
    case Leaf(row) => x in Read(row).elems && x !in row
    case Node(_, kids) => exists k :: 0 <= k < |kids| && Gains(kids[k], x)
  }

  lemma {:induction false} SomethingGained(t: Tree) returns (x: int)
    requires WellBuilt(t) && Readable(t) && !ReadsWell(t)
    ensures Gains(t, x)
    decreases t
  {
    hide Read, Storable;
    match t
    case Leaf(row) =>
      LeafReadBackIff(row);
      ReadIs(row);
      SameElems(Read(row).elems, row);
      x := SomethingMore(Elems(Read(row).elems), Elems(row));
    case Node(_, kids) =>
      var k :| 0 <= k < |kids| && !ReadsWell(kids[k]);
      x := SomethingGained(kids[k]);
      assert Gains(kids[k], x);
  }

  lemma {:induction false} GainSeen(t: Tree, x: int)
    requires WellBuilt(t) && Readable(t) && Gains(t, x)
    ensures x in Read(Stored(t)).elems
  {
    hide Read, Storable;
    if t.Node? {
      var k :| 0 <= k < |t.kids| && Gains(t.kids[k], x);
      GainSeen(t.kids[k], x);
      assert x in Elems(Read(Stored(t.kids[k])).elems);
    }
  }

  /** A search for x returns at least as many rows as have it, and more when a row
      is read with x that does not have it. */
  lemma {:induction false} TooMany(t: Tree, x: int)
    requires WellBuilt(t) && Readable(t)
    ensures var f := Found(t, Contains([x]));
      f.Rows? && |f.rows| >= |Matching(t, Contains([x]))| + if Gains(t, x) then 1 else 0
    decreases t, 1
  {
    var s := Contains([x]);
    hide Read, Storable;
    assert Elems([x]) == {x};
    match t
    case Leaf(row) => LeafReadBackIff(row);
    case Node(key, kids) =>
      if Gains(t, x) { GainSeen(t, x); }
      hide Gains, Consistent;
      if Consistent(Read(key).elems, s, false) {
        TooManyIn(kids, x);
        GainsIn(t, x);
      } else {
        ConsistentIfIn(Read(key).elems, x);
        NothingMatchesIn(kids, Read(key).elems, s);
      }
  }

  lemma ConsistentIfIn(key: seq<int>, x: int)
    ensures Consistent(key, Contains([x]), false) <==> x in key
  {
    assert Elems([x]) == {x};
  }

  lemma GainsIn(t: Tree, x: int)
    requires WellBuilt(t) && Readable(t) && t.Node?
    ensures Gains(t, x) <==> exists k :: 0 <= k < |t.kids| && Gains(t.kids[k], x)
  {
  }

  lemma {:induction false} TooManyIn(ts: seq<Tree>, x: int)
    requires forall k :: 0 <= k < |ts| ==> WellBuilt(ts[k]) && Readable(ts[k])
    ensures var f := FoundIn(ts, Contains([x])); f.Rows? && |f.rows| >= |MatchingIn(ts, Contains([x]))|
    ensures (exists k :: 0 <= k < |ts| && Gains(ts[k], x)) ==>
      |FoundIn(ts, Contains([x])).rows| > |MatchingIn(ts, Contains([x]))|
    decreases ts, 0
  {
    hide Gains, Consistent;
    if ts != [] {
      TooMany(ts[0], x);
      TooManyIn(ts[1..], x);
      if k :| 0 < k < |ts| && Gains(ts[k], x) { assert Gains(ts[1..][k - 1], x); }
    }
  }

  /** Every search of a tree returns exactly the matching rows, in order, if and only
      if its inner keys can be read and each row is shorter than 200 elements or made
      of pairs of neighbours below the largest int. */
  lemma SearchIsExactIff(t: Tree)
    requires WellBuilt(t)
    ensures (forall s :: Found(t, s) == Rows(Matching(t, s))) <==> ReadsWell(t)
  {
    hide Found, Matching, Gains;
    if ReadsWell(t) {
      forall s ensures Found(t, s) == Rows(Matching(t, s)) {
        SearchIsExact(t, s);
      }
    } else if !Readable(t) {
      AllVisited(t);
    } else {
      var x := SomethingGained(t);
      TooMany(t, x);
    }
  }

  // ----- concrete rows -----------------------------------------------------------

  /** The first n even numbers. */
  function Evens(n: nat): seq<int> {
    seq(n, i => 2 * i)
  }

  lemma {:induction false} EvensTotal(n: nat, k: nat)
    requires 2 * k <= n
    ensures RangeTotal(Evens(n), k) == 3 * k
  {
    if k > 0 {
      EvensTotal(n, k - 1);
      assert Lo(Evens(n), k - 1) == 4 * k - 4 && Hi(Evens(n), k - 1) == 4 * k - 2;
      if k > 1 { assert Hi(Evens(n), k - 2) == 4 * k - 6; }
    }
  }

  /** The row 0, 2, .. 398, or any longer one of that kind, is returned by a search
      for 1; with an odd number of elements it cannot be searched at all. */
  lemma BigRowsGoWrong(n: nat)
    requires 2 * MAXNUMRANGE <= n <= 40_000_000
    ensures var row := Evens(n);
      && WellBuilt(Leaf(row)) && Matching(Leaf(row), Contains([1])) == []
      && Found(Leaf(row), Contains([1])) == if n % 2 == 0 then Rows([row]) else Broken
  {
    EvensRead(n);
    hide Expand, Evens, Storable;
    assert Elems([1]) == {1};
  }

  lemma EvensRead(n: nat)
    requires 2 * MAXNUMRANGE <= n <= 40_000_000
    ensures var row := Evens(n);
      && Increasing(row) && Int32(row) && Storable(row) && 1 !in row
      && if n % 2 == 0 then Read(row).Elements? && 1 in Read(row).elems else Read(row) == OutOfArray
  {
    var row := Evens(n);
    RowStorable(row);
    if n % 2 == 0 {
      EvensTotal(n, n / 2);
      assert Lo(row, 0) == 0 && Hi(row, 0) == 2;
      hide Expand, RangeTotal;
      ReadIs(row);
      assert InRanges(row, 1);
    }
  }
}
