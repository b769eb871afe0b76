/** Sorting and deduplicating pairs, lists of keys, and slices. */
module HstoreKeys {
  import opened HstoreOrder
  import opened HstorePack
  import opened HstoreMerge
  import opened HstoreOps

  // ----- sorting pairs -----------------------------------------------------

  /** In order by key, equal keys allowed. */
  predicate Ordered(ps: seq<Pair>) {
    forall i, j :: 0 <= i < j < |ps| ==> !Less(ps[j].key, ps[i].key)
  }

  /** A sorting routine, known only by what it promises: of pairs with equal
      keys it may put either first. */
  method QSort(ps: seq<Pair>) returns (r: seq<Pair>)
    ensures Ordered(r) && multiset(r) == multiset(ps)
  {
    hide Ordered;
    r := [];
    assert Ordered(r) by { OrderedNone(); }
    for i := 0 to |ps|
      invariant Ordered(r) && multiset(r) == multiset(ps[..i])
    {
      assert ps[..i + 1] == ps[..i] + [ps[i]];
      r := InsertOne(r, ps[i]);
    }
    assert ps[..|ps|] == ps;
  }

  lemma OrderedNone()
    ensures Ordered([])
  {
  }

  method InsertOne(was: seq<Pair>, p: Pair) returns (r: seq<Pair>)
    requires Ordered(was)
    ensures Ordered(r) && multiset(r) == multiset(was) + multiset{p}
  {
    hide Ordered, Compare;
    var k := |was|;
    while k > 0 && Less(p.key, was[k - 1].key)
      invariant 0 <= k <= |was| && forall j :: k <= j < |was| ==> Less(p.key, was[j].key)
    {
      k := k - 1;
    }
    InsertOrdered(was, k, p);
    assert was == was[..k] + was[k..];
    r := was[..k] + [p] + was[k..];
  }

  lemma InsertOrdered(r: seq<Pair>, k: nat, p: Pair)
    requires Ordered(r) && k <= |r| && (k > 0 ==> !Less(p.key, r[k - 1].key))
    requires forall j :: k <= j < |r| ==> Less(p.key, r[j].key)
    ensures Ordered(r[..k] + [p] + r[k..])
  {
    forall j | 0 <= j < k ensures !Less(p.key, r[j].key) {
      if j < k - 1 && Less(p.key, r[j].key) {
        LessOrder(r[k - 1].key, r[j].key, p.key);
        LessOrder(p.key, r[j].key, r[k - 1].key);
        LessOrder(p.key, r[k - 1].key, p.key);
        SameOrLess(p.key, r[j].key, r[k - 1].key);
      }
    }
    forall j | k <= j < |r| ensures !Less(r[j].key, p.key) {
      LessOrder(p.key, r[j].key, p.key);
    }
  }

  lemma SameOrLess(a: string, b: string, c: string)
    requires Less(a, b) && !Less(c, b)
    ensures Less(a, c)
  {
    LessOrder(b, c, a);
    LessOrder(a, b, c);
  }

  /** The distinct keys of the pairs. */
  function KeysOf(ps: seq<Pair>): set<string> {
    set p | p in ps :: p.key
  }

  /** Sorts pairs in place and keeps one for each key; buflen is the number of
      bytes of those kept. */
  method UniquePairs(a: array<Pair>, l: nat) returns (n: nat, buflen: nat)
    requires l <= a.Length
    modifies a
    ensures n <= l && Sorted(a[..n]) && buflen == Total(a[..n], n)
    ensures KeysOf(a[..n]) == KeysOf(old(a[..l])) && forall p :: p in a[..n] ==> p in old(a[..l])
    ensures Sorted(old(a[..l])) ==> a[..n] == old(a[..l])
  {
    ghost var was := a[..l];
    if l < 2 {
      buflen := 0;
      if l == 1 {
        buflen := Bytes(a[0]);
        assert a[..1] == [a[0]] && Total(a[..1], 1) == buflen;
      } else {
        assert a[..0] == [];
      }
      return l, buflen;
    }
    var sorted := QSort(a[..l]);
    SameMembers(sorted, was);
    assert |multiset(sorted)| == |multiset(was)|;
    forall i | 0 <= i < l {
      a[i] := sorted[i];
    }
    assert a[..l] == sorted;
    n, buflen := Dedup(a, l);
    FirstsSorted(sorted, l);
    DedupKeys(sorted, was);
    if Sorted(was) {
      SortedIsSorted(was, sorted);
      FirstsOfSorted(was, l);
      assert was[..l] == was;
    }
  }

  lemma DedupKeys(sorted: seq<Pair>, was: seq<Pair>)
    requires forall p :: p in sorted <==> p in was
    ensures var kept := Firsts(sorted, |sorted|); KeysOf(kept) == KeysOf(was) && forall p :: p in kept ==> p in was
  {
    FirstsMembers(sorted, |sorted|);
    var kept := Firsts(sorted, |sorted|);
    forall k | k in KeysOf(was) ensures k in KeysOf(kept) {
      var p :| p in was && p.key == k;
      var i :| 0 <= i < |sorted| && sorted[i] == p;
      assert HasKey(kept, sorted[i].key);
      var j :| 0 <= j < |kept| && kept[j].key == k;
      assert kept[j] in kept;
    }
  }

  lemma SameMembers(a: seq<Pair>, b: seq<Pair>)
    requires multiset(a) == multiset(b)
    ensures forall p :: p in a <==> p in b
  {
    forall p ensures p in a <==> p in b {
      assert p in multiset(a) <==> p in multiset(b);
    }
  }

  /** Sorting what is strictly sorted changes nothing. */
  lemma {:induction false} SortedIsSorted(was: seq<Pair>, sorted: seq<Pair>)
    requires Sorted(was) && Ordered(sorted) && multiset(was) == multiset(sorted)
    ensures was == sorted
    decreases |was|
  {
    assert |multiset(was)| == |was| && |multiset(sorted)| == |sorted|;
    if was != [] {
      SameMembers(was, sorted);
      LastSame(was, sorted);
      LastOffBoth(was, sorted);
      hide Sorted, Ordered;
      SortedIsSorted(was[..|was| - 1], sorted[..|sorted| - 1]);
      assert was == was[..|was| - 1] + [was[|was| - 1]];
      assert sorted == sorted[..|sorted| - 1] + [sorted[|sorted| - 1]];
    }
  }

  lemma LastOffBoth(was: seq<Pair>, sorted: seq<Pair>)
    requires Sorted(was) && Ordered(sorted) && multiset(was) == multiset(sorted)
    requires was != [] && sorted != [] && was[|was| - 1] == sorted[|sorted| - 1]
    ensures var was', sorted' := was[..|was| - 1], sorted[..|sorted| - 1];
      Sorted(was') && Ordered(sorted') && multiset(was') == multiset(sorted')
  {
    MultisetLastOff(was);
    MultisetLastOff(sorted);
  }

  lemma MultisetLastOff(ps: seq<Pair>)
    requires ps != []
    ensures multiset(ps[..|ps| - 1]) == multiset(ps) - multiset{ps[|ps| - 1]}
  {
    assert ps == ps[..|ps| - 1] + [ps[|ps| - 1]];
  }

  lemma LastSame(was: seq<Pair>, sorted: seq<Pair>)
    requires Sorted(was) && Ordered(sorted) && was != [] && sorted != [] && forall p :: p in was <==> p in sorted
    ensures was[|was| - 1] == sorted[|sorted| - 1]
  {
    var p, q := was[|was| - 1], sorted[|sorted| - 1];
    assert p in sorted && q in was;
    var i :| 0 <= i < |sorted| && sorted[i] == p;
    var j :| 0 <= j < |was| && was[j] == q;
    assert i < |sorted| - 1 ==> !Less(q.key, p.key);
    assert j < |was| - 1 ==> Less(q.key, p.key);
  }

  /** The first pair of each run of equal keys among the first n. */
  function Firsts(ps: seq<Pair>, n: nat): (r: seq<Pair>)
    requires n <= |ps|
    ensures |r| <= n && (n > 0 ==> r != [] && r[|r| - 1].key == ps[n - 1].key)
  {
    if n == 0 then []
    else if n > 1 && ps[n - 1].key == ps[n - 2].key then Firsts(ps, n - 1)
    else Firsts(ps, n - 1) + [ps[n - 1]]
  }

  function Bytes(p: Pair): nat {
    |p.key| + if p.val.Null? then 0 else |p.val.text|
  }

  /** Pairs up to res are what is kept of the first ptr of was; the rest are
      as they were. */
  ghost predicate Closing(a: array<Pair>, was: seq<Pair>, ptr: nat, res: nat, buflen: nat, kept: seq<Pair>)
    reads a
  {
    && res < ptr <= |was| <= a.Length && kept == Firsts(was, ptr) && |kept| == res + 1
    && (forall k :: 0 <= k <= res ==> a[k] == kept[k])
    && (forall k :: ptr <= k < |was| ==> a[k] == was[k])
    && buflen == Total(kept, res)
  }

  /** Closes up runs of equal keys to their first pair, adding up the bytes. */
  method Dedup(a: array<Pair>, l: nat) returns (n: nat, buflen: nat)
    requires 1 <= l <= a.Length
    modifies a
    ensures n <= l && a[..n] == Firsts(old(a[..l]), l) && buflen == Total(a[..n], n)
  {
    ghost var was, kept := a[..l], [a[0]];
    var ptr, res := 1, 0;
    buflen := 0;
    assert Closing(a, was, 1, 0, 0, kept);
    hide Closing;
    while ptr < l
      invariant ptr <= l && Closing(a, was, ptr, res, buflen, kept)
    {
      res, buflen, kept := DedupOne(a, ptr, res, buflen, was, kept);
      ptr := ptr + 1;
    }
    n, buflen := DedupEnd(a, res, buflen, was, kept);
  }

  method DedupOne(a: array<Pair>, ptr: nat, res: nat, buflen: nat, ghost was: seq<Pair>, ghost kept: seq<Pair>)
    returns (res': nat, buflen': nat, ghost kept': seq<Pair>)
    requires Closing(a, was, ptr, res, buflen, kept) && ptr < |was|
    modifies a
    ensures Closing(a, was, ptr + 1, res', buflen', kept')
  {
    hide Firsts, Total, Bytes, Compare;
    FirstsStep(was, ptr);
    if Compare(a[ptr].key, a[res].key) == 0 {
      return res, buflen, kept;
    }
    TotalStep(kept, res, was[ptr]);
    buflen' := buflen + Bytes(a[res]);
    res' := res + 1;
    kept' := kept + [was[ptr]];
    if res' != ptr {
      a[res'] := a[ptr];
    }
  }

  method DedupEnd(a: array<Pair>, res: nat, buflen: nat, ghost was: seq<Pair>, ghost kept: seq<Pair>)
    returns (n: nat, total: nat)
    requires Closing(a, was, |was|, res, buflen, kept)
    ensures n <= |was| && a[..n] == Firsts(was, |was|) && total == Total(a[..n], n)
  {
    hide Firsts, Total, Bytes;
    TotalStep(kept, res, kept[res]);
    n, total := res + 1, buflen + Bytes(a[res]);
    assert a[..n] == kept;
  }

  lemma FirstsStep(ps: seq<Pair>, n: nat)
    requires 0 < n < |ps|
    ensures Firsts(ps, n + 1) == Firsts(ps, n) + if ps[n].key == ps[n - 1].key then [] else [ps[n]]
  {
  }

  lemma TotalStep(ps: seq<Pair>, i: nat, p: Pair)
    requires i < |ps|
    ensures Total(ps, i + 1) == Total(ps, i) + Bytes(ps[i])
    ensures Total(ps + [p], i + 1) == Total(ps, i + 1)
  {
    SnocSame(ps, p, i + 1);
  }

  lemma {:induction false} FirstsSorted(ps: seq<Pair>, n: nat)
    requires n <= |ps| && Ordered(ps)
    ensures Sorted(Firsts(ps, n))
  {
    if n > 0 {
      FirstsSorted(ps, n - 1);
      if n > 1 && ps[n - 1].key != ps[n - 2].key {
        assert !Less(ps[n - 1].key, ps[n - 2].key);
        LessOrder(ps[n - 2].key, ps[n - 1].key, ps[n - 2].key);
        SortedAppend(Firsts(ps, n - 1), ps[n - 1]);
      }
    }
  }

  lemma SortedAppend(rs: seq<Pair>, p: Pair)
    requires Sorted(rs) && rs != [] && Less(rs[|rs| - 1].key, p.key)
    ensures Sorted(rs + [p])
  {
    forall i | 0 <= i < |rs| ensures Less(rs[i].key, p.key) {
      if i < |rs| - 1 { LessOrder(rs[i].key, rs[|rs| - 1].key, p.key); }
    }
    SortedSnoc(rs, p);
  }

  /** Those kept are among the pairs, and every key is kept. */
  lemma {:induction false} FirstsMembers(ps: seq<Pair>, n: nat)
    requires n <= |ps|
    ensures forall p :: p in Firsts(ps, n) ==> p in ps
    ensures forall i :: 0 <= i < n ==> HasKey(Firsts(ps, n), ps[i].key)
  {
    if n > 0 {
      FirstsMembers(ps, n - 1);
      var rs := Firsts(ps, n - 1);
      forall i | 0 <= i < n ensures HasKey(Firsts(ps, n), ps[i].key) {
        if i < n - 1 {
          HasKeySnoc(rs, ps[n - 1], ps[i].key);
        } else {
          var r := Firsts(ps, n);
          assert r[|r| - 1].key == ps[i].key;
        }
      }
    }
  }

  predicate HasKey(ps: seq<Pair>, k: string) {
    exists j :: 0 <= j < |ps| && ps[j].key == k
  }

  lemma HasKeySnoc(ps: seq<Pair>, p: Pair, k: string)
    requires HasKey(ps, k)
    ensures HasKey(ps + [p], k)
  {
    var j :| 0 <= j < |ps| && ps[j].key == k;
    assert (ps + [p])[j].key == k;
  }

  lemma {:induction false} FirstsOfSorted(ps: seq<Pair>, n: nat)
    requires n <= |ps| && Sorted(ps)
    ensures Firsts(ps, n) == ps[..n]
  {
    if n > 0 {
      FirstsOfSorted(ps, n - 1);
      if n > 1 { assert Less(ps[n - 2].key, ps[n - 1].key); }
      assert ps[..n] == ps[..n - 1] + [ps[n - 1]];
    }
  }

  // ----- lists of keys -----------------------------------------------------

  /** The distinct non-null elements of a text array, in key order. An array with
      more elements than pairs fit in one allocation is refused. */
  method ArrayToPairs(keys: seq<Value>) returns (ok: bool, pairs: seq<Pair>)
    ensures ok <==> |keys| <= MAXALLOC / 40
    ensures ok ==> Sorted(pairs) && AsMap(pairs).Keys == set v | v in keys && v.Text? :: v.text
  {
    if |keys| == 0 {
      return true, [];
    }
    if |keys| > MAXALLOC / 40 {
      return false, [];
    }
    var a := new Pair[|keys|](_ => Pair([], Null));
    var j := 0;
    for i := 0 to |keys|
      invariant j <= i && KeysOf(a[..j]) == set v | v in keys[..i] && v.Text? :: v.text
    {
      assert keys[..i + 1] == keys[..i] + [keys[i]];
      if keys[i].Text? {
        ghost var was := a[..j];
        a[j] := Pair(keys[i].text, Null);
        j := j + 1;
        assert a[..j] == was + [Pair(keys[i].text, Null)];
        KeysOfSnoc(was, Pair(keys[i].text, Null));
      }
    }
    assert keys[..|keys|] == keys;
    var n, _ := UniquePairs(a, j);
    KeysAreKeys(a[..n]);
    return true, a[..n];
  }

  lemma KeysOfSnoc(ps: seq<Pair>, p: Pair)
    ensures KeysOf(ps + [p]) == KeysOf(ps) + {p.key}
  {
  }

  lemma KeysAreKeys(ps: seq<Pair>)
    requires Sorted(ps)
    ensures AsMap(ps).Keys == KeysOf(ps)
  {
    forall k ensures k in AsMap(ps).Keys <==> k in KeysOf(ps) {
      MapOfIn(ps, |ps|, k);
      if k in KeysOf(ps) {
        var p :| p in ps && p.key == k;
        var i :| 0 <= i < |ps| && ps[i] == p;
      }
    }
  }

  // ----- slices ------------------------------------------------------------

  function Restrict(m: Store, ks: set<string>): Store {
    map k | k in m && k in ks :: m[k]
  }

  lemma RestrictMore(m: Store, ks: set<string>, k: string)
    ensures k in m ==> Restrict(m, ks + {k}) == Restrict(m, ks)[k := m[k]]
    ensures k !in m ==> Restrict(m, ks + {k}) == Restrict(m, ks)
  {
  }

  lemma {:induction false} SkipTo(rs: seq<Pair>, ps: seq<Pair>, i: nat, low: nat, m: Store)
    requires Taken(rs, ps, i, m) && i <= low <= |ps|
    ensures Taken(rs, ps, low, m)
  {
    TotalUp(ps, i, low);
  }

  lemma RestrictStep(keys: seq<Pair>, i: nat, m: Store)
    requires i < |keys|
    ensures MapOf(keys, i + 1).Keys == MapOf(keys, i).Keys + {keys[i].key}
    ensures Restrict(m, MapOf(keys, 0).Keys) == map[]
  {
  }

  /** rs are the pairs of the first i keys, found below position low. */
  ghost predicate Slicing(rs: seq<Pair>, ps: seq<Pair>, low: nat, keys: seq<Pair>, i: nat, m: Store) {
    && low <= |ps| && i <= |keys| && (i < |keys| ==> LowBound(ps, low, keys[i].key))
    && Taken(rs, ps, low, Restrict(m, MapOf(keys, i).Keys))
  }

  /** The pairs whose keys are listed, found with a carried lower bound. */
  method Slice(hs: HStore, keys: seq<Pair>, ghost m: Store) returns (r: Result)
    requires Stores(hs, m) && Sorted(keys)
    ensures r.Ok? && Stores(r.hs, Restrict(m, AsMap(keys).Keys))
  {
    ghost var ps := PairsOf(hs, m);
    var outPairs: seq<Pair>, lastidx, bufsiz := [], 0, 0;
    hide Packed, Small, Sorted, Total, AsMap, Slicing, Stores, Restrict;
    SliceNone(ps, keys, m);
    for i := 0 to |keys|
      invariant Slicing(outPairs, ps, lastidx, keys, i, m)
      invariant bufsiz == Total(outPairs, |outPairs|)
    {
      outPairs, lastidx, bufsiz := SliceOne(hs, outPairs, lastidx, bufsiz, keys, i, ps, m);
    }
    r := SliceEnd(outPairs, bufsiz, lastidx, keys, ps, m);
  }

  method SliceEnd(rs: seq<Pair>, bufsiz: nat, ghost low: nat, ghost keys: seq<Pair>, ghost ps: seq<Pair>, ghost m: Store)
    returns (r: Result)
    requires Slicing(rs, ps, low, keys, |keys|, m) && Small(ps) && bufsiz == Total(rs, |rs|)
    ensures r.Ok? && Stores(r.hs, Restrict(m, AsMap(keys).Keys))
  {
    hide Packed, Small, Total, AsMap, Slicing, Stores, Restrict;
    SliceSmall(rs, ps, low, keys, m);
    r := FromPairs(rs, bufsiz);
    SliceStores(rs, ps, low, keys, m, r.hs);
  }

  lemma SliceNone(ps: seq<Pair>, keys: seq<Pair>, m: Store)
    ensures Slicing([], ps, 0, keys, 0, m) && Total([], 0) == 0
  {
    TakeNone(ps);
    assert Restrict(m, MapOf(keys, 0).Keys) == map[];
  }

  method SliceOne(hs: HStore, rs: seq<Pair>, lastidx: nat, bufsiz: nat, keys: seq<Pair>, i: nat, ghost ps: seq<Pair>,
                  ghost m: Store)
    returns (rs': seq<Pair>, low: nat, bufsiz': nat)
    requires Packed(hs, ps) && Small(ps) && Sorted(ps) && Sorted(keys) && AsMap(ps) == m && i < |keys|
    requires Slicing(rs, ps, lastidx, keys, i, m) && bufsiz == Total(rs, |rs|)
    ensures Slicing(rs', ps, low, keys, i + 1, m) && bufsiz' == Total(rs', |rs'|)
  {
    hide Packed, Small, Sorted, Taken, Total, AsMap, LowBound, Restrict, MapOf;
    ghost var was := Restrict(m, MapOf(keys, i).Keys);
    var idx: int;
    idx, low := FindKey(hs, lastidx, keys[i].key, ps);
    NextBound(ps, low, keys, i);
    RestrictStep(keys, i, m);
    RestrictMore(m, MapOf(keys, i).Keys, keys[i].key);
    rs', bufsiz' := rs, bufsiz;
    if idx >= 0 {
      FoundIn(ps, idx);
      SkipTo(rs, ps, lastidx, idx, was);
      Take(rs, ps, idx, was);
      SnocEnd(rs, ps[idx]);
      var val := ReadVal(hs, idx, ps);
      rs' := rs + [Pair(keys[i].key, val)];
      bufsiz' := bufsiz + |keys[i].key| + ValLen(val);
    } else {
      SkipTo(rs, ps, lastidx, low, was);
    }
  }

  lemma SliceSmall(rs: seq<Pair>, ps: seq<Pair>, low: nat, keys: seq<Pair>, m: Store)
    requires Slicing(rs, ps, low, keys, |keys|, m) && Small(ps)
    ensures Small(rs)
  {
    TakenFits(rs, ps, low, Restrict(m, MapOf(keys, |keys|).Keys));
  }

  lemma SliceStores(rs: seq<Pair>, ps: seq<Pair>, i: nat, keys: seq<Pair>, m: Store, hs: HStore)
    requires Slicing(rs, ps, i, keys, |keys|, m) && Small(rs) && Packed(hs, rs)
    ensures Stores(hs, Restrict(m, AsMap(keys).Keys))
  {
  }

  /** Reads the value of pair i. */
  method ReadVal(hs: HStore, i: nat, ghost ps: seq<Pair>) returns (val: Value)
    requires Packed(hs, ps) && Small(ps) && i < |ps|
    ensures val == ps[i].val
  {
    Unpacks(hs, ps, i);
    hide Packed, Small, ValIsNull, ValSize, ValOff;
    val := Val(hs, i);
  }
}
