/** Concatenation of hstores. */
module HstoreConcat {
  import opened HstoreOrder
  import opened HstorePack
  import opened HstoreMerge
  import opened HstoreOps

  // ----- concatenation -----------------------------------------------------

  /** rs was taken from the first i pairs of ps and the first j of qs. */
  ghost predicate TakenBoth(rs: seq<Pair>, ps: seq<Pair>, i: nat, qs: seq<Pair>, j: nat, m: Store) {
    && i <= |ps| && j <= |qs| && Sorted(rs) && Behind(rs, |rs|, ps, i) && Behind(rs, |rs|, qs, j)
    && |rs| <= i + j && Total(rs, |rs|) <= Total(ps, i) + Total(qs, j) && AsMap(rs) == m
  }

  lemma TakeBothNone(ps: seq<Pair>, qs: seq<Pair>)
    ensures TakenBoth([], ps, 0, qs, 0, map[])
  {
  }

  lemma Swapped(rs: seq<Pair>, ps: seq<Pair>, i: nat, qs: seq<Pair>, j: nat, m: Store)
    requires TakenBoth(rs, ps, i, qs, j, m)
    ensures TakenBoth(rs, qs, j, ps, i, m)
  {
  }

  lemma BehindSnoc(rs: seq<Pair>, p: Pair, ps: seq<Pair>, i: nat)
    requires Behind(rs, |rs|, ps, i) && forall b :: i <= b < |ps| ==> Less(p.key, ps[b].key)
    ensures Behind(rs + [p], |rs| + 1, ps, i)
  {
    var rs' := rs + [p];
    forall a, b | 0 <= a < |rs'| && i <= b < |ps| ensures Less(rs'[a].key, ps[b].key) {
      if a < |rs| { assert Less(rs[a].key, ps[b].key); }
    }
  }

  lemma BelowRest(p: Pair, qs: seq<Pair>, j: nat)
    requires Sorted(qs) && (j < |qs| ==> Less(p.key, qs[j].key))
    ensures forall b :: j <= b < |qs| ==> Less(p.key, qs[b].key)
  {
    forall b | j < b < |qs| ensures Less(p.key, qs[b].key) {
      LessOrder(p.key, qs[j].key, qs[b].key);
    }
  }

  /** Pair i of ps is next, and comes before what is left of qs. */
  lemma TakeFirst(rs: seq<Pair>, ps: seq<Pair>, i: nat, qs: seq<Pair>, j: nat, m: Store)
    requires TakenBoth(rs, ps, i, qs, j, m) && i < |ps| && Sorted(ps) && Sorted(qs)
    requires j < |qs| ==> Less(ps[i].key, qs[j].key)
    ensures TakenBoth(rs + [ps[i]], ps, i + 1, qs, j, m[ps[i].key := ps[i].val])
  {
    BelowRest(ps[i], qs, j);
    BehindSnoc(rs, ps[i], qs, j);
    BelowRest(ps[i], ps, i + 1);
    BehindNext(rs, |rs|, ps, i);
    BehindSnoc(rs, ps[i], ps, i + 1);
    SnocEnd(rs, ps[i]);
    AsMapSnoc(rs, ps[i]);
    SortedSnoc(rs, ps[i]);
    hide Behind, MapOf, Sorted;
  }

  /** Pair j of qs has the key of pair i of ps and replaces it. */
  lemma TakeSame(rs: seq<Pair>, ps: seq<Pair>, i: nat, qs: seq<Pair>, j: nat, m: Store)
    requires TakenBoth(rs, ps, i, qs, j, m) && i < |ps| && j < |qs| && Sorted(ps) && Sorted(qs)
    requires ps[i].key == qs[j].key
    ensures TakenBoth(rs + [qs[j]], ps, i + 1, qs, j + 1, m[qs[j].key := qs[j].val])
  {
    BelowRest(qs[j], ps, i + 1);
    BehindNext(rs, |rs|, ps, i);
    BehindSnoc(rs, qs[j], ps, i + 1);
    BelowRest(qs[j], qs, j + 1);
    BehindNext(rs, |rs|, qs, j);
    BehindSnoc(rs, qs[j], qs, j + 1);
    SnocEnd(rs, qs[j]);
    AsMapSnoc(rs, qs[j]);
    SortedSnoc(rs, qs[j]);
    hide Behind, MapOf, Sorted;
  }

  function Union(ps: seq<Pair>, i: nat, qs: seq<Pair>, j: nat): Store
    requires i <= |ps| && j <= |qs|
  {
    MapOf(ps, i) + MapOf(qs, j)
  }

  lemma UnionRight(ps: seq<Pair>, i: nat, qs: seq<Pair>, j: nat)
    requires i <= |ps| && j < |qs|
    ensures Union(ps, i, qs, j + 1) == Union(ps, i, qs, j)[qs[j].key := qs[j].val]
    ensures i < |ps| && ps[i].key == qs[j].key ==>
      Union(ps, i + 1, qs, j + 1) == Union(ps, i, qs, j)[qs[j].key := qs[j].val]
  {
  }

  lemma UnionLeft(ps: seq<Pair>, i: nat, qs: seq<Pair>, j: nat)
    requires Behind(qs, j, ps, i) && i < |ps| && Sorted(qs)
    ensures Union(ps, i + 1, qs, j) == Union(ps, i, qs, j)[ps[i].key := ps[i].val]
  {
    NotAmongFirst(qs, j, ps, i);
  }

  lemma UnionEnds(ps: seq<Pair>, qs: seq<Pair>)
    ensures Union(ps, 0, qs, 0) == map[] && Union(ps, |ps|, qs, |qs|) == AsMap(ps) + AsMap(qs)
  {
  }

  ghost predicate Joining(w: Writer, rs: seq<Pair>, ps: seq<Pair>, i: nat, qs: seq<Pair>, j: nat)
    reads w, w.ents, w.buf
  {
    && i <= |ps| && j <= |qs| && w.Holds(rs) && TakenBoth(rs, ps, i, qs, j, Union(ps, i, qs, j)) && Behind(qs, j, ps, i)
    && w.ents.Length == |ps| + |qs| && w.buf.Length == Total(ps, |ps|) + Total(qs, |qs|) < POS
  }

  lemma JoinFits(rs: seq<Pair>, ps: seq<Pair>, i: nat, qs: seq<Pair>, j: nat, m: Store)
    requires TakenBoth(rs, ps, i, qs, j, m)
    ensures |rs| <= i + j
    ensures i < |ps| ==> Total(rs, |rs|) + Total(ps, i + 1) - Total(ps, i) <= Total(ps, |ps|) + Total(qs, |qs|)
    ensures j < |qs| ==> Total(rs, |rs|) + Total(qs, j + 1) - Total(qs, j) <= Total(ps, |ps|) + Total(qs, |qs|)
  {
    hide Sorted, Behind, AsMap, Total;
    TotalUp(ps, i, |ps|);
    TotalUp(qs, j, |qs|);
    if i < |ps| { TotalUp(ps, i + 1, |ps|); }
    if j < |qs| { TotalUp(qs, j + 1, |qs|); }
  }

  /** Copies pair i of the first hstore. */
  method JoinLeft(w: Writer, s1: HStore, i: nat, j: nat, ghost rs: seq<Pair>, ghost ps: seq<Pair>, ghost qs: seq<Pair>)
    returns (ghost rs': seq<Pair>)
    requires Joining(w, rs, ps, i, qs, j) && Packed(s1, ps) && Small(ps) && Sorted(ps) && Sorted(qs) && i < |ps|
    requires j < |qs| ==> Less(ps[i].key, qs[j].key)
    modifies w, w.ents, w.buf
    ensures Joining(w, rs', ps, i + 1, qs, j)
  {
    hide Packed, Small, Sorted, TakenBoth, Behind, Union, Less;
    JoinFits(rs, ps, i, qs, j, Union(ps, i, qs, j));
    TakeFirst(rs, ps, i, qs, j, Union(ps, i, qs, j));
    UnionLeft(ps, i, qs, j);
    BehindNext(qs, j, ps, i);
    Copy(w, s1, i, ps, rs);
    rs' := rs + [ps[i]];
  }

  /** Copies pair j of the second hstore, which comes first or is the same. */
  method JoinRight(w: Writer, s2: HStore, i: nat, j: nat, ghost rs: seq<Pair>, ghost ps: seq<Pair>, ghost qs: seq<Pair>)
    returns (ghost rs': seq<Pair>)
    requires Joining(w, rs, ps, i, qs, j) && Packed(s2, qs) && Small(qs) && Sorted(ps) && Sorted(qs) && j < |qs|
    requires i < |ps| ==> Less(qs[j].key, ps[i].key)
    modifies w, w.ents, w.buf
    ensures Joining(w, rs', ps, i, qs, j + 1)
  {
    hide Packed, Small, Sorted, TakenBoth, Behind, Union, Less;
    JoinFits(rs, ps, i, qs, j, Union(ps, i, qs, j));
    Swapped(rs, ps, i, qs, j, Union(ps, i, qs, j));
    TakeFirst(rs, qs, j, ps, i, Union(ps, i, qs, j));
    UnionRight(ps, i, qs, j);
    Swapped(rs + [qs[j]], qs, j + 1, ps, i, Union(ps, i, qs, j + 1));
    BehindPush(qs, j, ps, i);
    Copy(w, s2, j, qs, rs);
    rs' := rs + [qs[j]];
  }

  method JoinSame(w: Writer, s2: HStore, i: nat, j: nat, ghost rs: seq<Pair>, ghost ps: seq<Pair>, ghost qs: seq<Pair>)
    returns (ghost rs': seq<Pair>)
    requires Joining(w, rs, ps, i, qs, j) && Packed(s2, qs) && Small(qs) && Sorted(ps) && Sorted(qs)
    requires i < |ps| && j < |qs| && ps[i].key == qs[j].key
    modifies w, w.ents, w.buf
    ensures Joining(w, rs', ps, i + 1, qs, j + 1)
  {
    hide Packed, Small, Sorted, TakenBoth, Behind, Union, Less;
    JoinFits(rs, ps, i, qs, j, Union(ps, i, qs, j));
    TakeSame(rs, ps, i, qs, j, Union(ps, i, qs, j));
    UnionRight(ps, i, qs, j);
    BehindEqual(qs, j, ps, i);
    Copy(w, s2, j, qs, rs);
    rs' := rs + [qs[j]];
  }

  lemma Flipped(a: string, b: string)
    requires Compare(a, b) > 0
    ensures Less(b, a)
  {
    LessOrder(a, b, a);
  }

  method StartJoin(s1: HStore, s2: HStore, ghost ps: seq<Pair>, ghost qs: seq<Pair>) returns (w: Writer)
    requires Packed(s1, ps) && Packed(s2, qs) && s1.varsize + s2.varsize <= MAXALLOC
    ensures fresh(w) && fresh(w.ents) && fresh(w.buf) && Joining(w, [], ps, 0, qs, 0)
  {
    w := new Writer(s1.count + s2.count, |s1.str| + |s2.str|);
    TakeBothNone(ps, qs);
    UnionEnds(ps, qs);
    BehindNone(qs, ps);
  }

  /** Which hstore the next pair comes from: a used up one counts as later. */
  method Difference(s1: HStore, i: nat, s2: HStore, j: nat, ghost ps: seq<Pair>, ghost qs: seq<Pair>)
    returns (difference: int)
    requires Packed(s1, ps) && Packed(s2, qs) && Small(ps) && Small(qs)
    requires i <= |ps| && j <= |qs| && (i < |ps| || j < |qs|)
    ensures difference > 0 ==> j < |qs| && (i < |ps| ==> Less(qs[j].key, ps[i].key))
    ensures difference == 0 ==> i < |ps| && j < |qs| && ps[i].key == qs[j].key
    ensures difference < 0 ==> i < |ps| && (j < |qs| ==> Less(ps[i].key, qs[j].key))
  {
    assert |ps| == s1.count && |qs| == s2.count;
    hide Packed, Small;
    if i >= s1.count {
      return 1;
    } else if j >= s2.count {
      return -1;
    }
    var key := ReadKey(s2, j, qs);
    difference := CompareKey(s1, i, key, ps);
    if difference > 0 { Flipped(ps[i].key, qs[j].key); }
  }

  /** Copies the next pair of the result. */
  method JoinNext(w: Writer, s1: HStore, i: nat, s2: HStore, j: nat, ghost rs: seq<Pair>, ghost ps: seq<Pair>,
      ghost qs: seq<Pair>)
    returns (i': nat, j': nat, ghost rs': seq<Pair>)
    requires Packed(s1, ps) && Packed(s2, qs) && Small(ps) && Small(qs) && Sorted(ps) && Sorted(qs)
    requires i <= |ps| && j <= |qs| && (i < |ps| || j < |qs|) && Joining(w, rs, ps, i, qs, j)
    modifies w, w.ents, w.buf
    ensures i <= i' <= |ps| && j <= j' <= |qs| && i + j < i' + j'
    ensures Joining(w, rs', ps, i', qs, j')
  {
    hide Packed, Small, Sorted, Joining, Less;
    i', j' := i, j;
    var difference := Difference(s1, i, s2, j, ps, qs);
    if difference > 0 {
      rs' := JoinRight(w, s2, i, j, rs, ps, qs);
      j' := j + 1;
    } else if difference == 0 {
      rs' := JoinSame(w, s2, i, j, rs, ps, qs);
      i', j' := i + 1, j + 1;
    } else {
      rs' := JoinLeft(w, s1, i, j, rs, ps, qs);
      i' := i + 1;
    }
  }

  /** Merges two hstores; the second wins where both have a key. */
  method Join(s1: HStore, s2: HStore, ghost m1: Store, ghost m2: Store) returns (out: HStore)
    requires Stores(s1, m1) && Stores(s2, m2) && s1.varsize + s2.varsize <= MAXALLOC
    ensures Stores(out, m1 + m2)
  {
    ghost var ps := PairsOf(s1, m1);
    ghost var rs: seq<Pair> := [];
    ghost var qs := PairsOf(s2, m2);
    assert |ps| == s1.count && |qs| == s2.count;
    hide Packed, Small, Sorted, Joining, Less, Stores, AsMap;
    var w := StartJoin(s1, s2, ps, qs);
    var i, j := 0, 0;
    while i < s1.count || j < s2.count
      invariant fresh(w) && fresh(w.ents) && fresh(w.buf)
      invariant i <= |ps| && j <= |qs| && Joining(w, rs, ps, i, qs, j)
      decreases |ps| - i + |qs| - j
    {
      i, j, rs := JoinNext(w, s1, i, s2, j, rs, ps, qs);
    }
    out := FinishJoin(w, rs, ps, qs, s1, s2);
  }

  method FinishJoin(w: Writer, ghost rs: seq<Pair>, ghost ps: seq<Pair>, ghost qs: seq<Pair>, ghost s1: HStore, ghost s2: HStore)
    returns (out: HStore)
    requires Joining(w, rs, ps, |ps|, qs, |qs|) && Packed(s1, ps) && Packed(s2, qs) && s1.varsize + s2.varsize <= MAXALLOC
    modifies w.ents
    ensures Stores(out, AsMap(ps) + AsMap(qs))
  {
    UnionEnds(ps, qs);
    assert Small(rs);
    hide Packed, Small, Union;
    out := w.Finalize(rs);
  }

  method Concat(s1: HStore, s2: HStore, ghost m1: Store, ghost m2: Store) returns (r: Result)
    requires Stores(s1, m1) && Stores(s2, m2)
    ensures r.Ok? <==> s1.varsize + s2.varsize <= MAXALLOC
    ensures r.Ok? ==> Stores(r.hs, m1 + m2)
  {
    if s1.varsize + s2.varsize > MAXALLOC {
      return TooLong;
    }
    var out;
    if s1.count == 0 {
      EmptyMap(s1, m1);
      assert m1 + m2 == m2;
      ghost var qs := PairsOf(s2, m2);
      out := CopyOf(s2, qs);
    } else if s2.count == 0 {
      EmptyMap(s2, m2);
      assert m1 + m2 == m1;
      ghost var ps := PairsOf(s1, m1);
      out := CopyOf(s1, ps);
    } else {
      out := Join(s1, s2, m1, m2);
    }
    return Ok(out);
  }

  lemma EmptyMap(hs: HStore, m: Store)
    requires Stores(hs, m) && hs.count == 0
    ensures m == map[]
  {
    var ps := PairsOf(hs, m);
  }
}
