/** The operations on packed hstores, each against the map operation it is for. */
module HstoreOps {
  import opened HstoreOrder
  import opened HstorePack
  import opened HstoreMerge

  // ----- search ------------------------------------------------------------

  /** The pairs below position low all have keys before key. */
  predicate LowBound(ps: seq<Pair>, low: nat, key: string) {
    low <= |ps| && forall i :: 0 <= i < low ==> Less(ps[i].key, key)
  }

  /** Binary search from a lower bound carried over from a smaller key. */
  method FindKey(hs: HStore, lowbound: nat, key: string, ghost ps: seq<Pair>) returns (idx: int, low: nat)
    requires Packed(hs, ps) && Small(ps) && Sorted(ps) && LowBound(ps, lowbound, key)
    ensures -1 <= idx < |ps| && lowbound <= low <= |ps|
    ensures idx >= 0 ==> lowbound <= idx < low && low == idx + 1 && ps[idx].key == key
    ensures idx < 0 ==> key !in AsMap(ps)
    ensures forall next :: Less(key, next) ==> LowBound(ps, low, next)
  {
    var stopLow, stopHigh := lowbound, hs.count;
    assert stopHigh == |ps|;
    hide Packed, Small, Sorted;
    while stopLow < stopHigh
      invariant lowbound <= stopLow <= stopHigh <= |ps| && LowBound(ps, stopLow, key)
      invariant forall i :: stopHigh <= i < |ps| ==> Less(key, ps[i].key)
    {
      var mid := stopLow + (stopHigh - stopLow) / 2;
      var difference := CompareKey(hs, mid, key, ps);
      if difference == 0 {
        FoundBound(ps, mid, key);
        return mid, mid + 1;
      } else if difference < 0 {
        BoundMoves(ps, mid, key);
        stopLow := mid + 1;
      } else {
        AboveMoves(ps, mid, key);
        stopHigh := mid;
      }
    }
    MissBound(ps, stopLow, key);
    return -1, stopLow;
  }

  lemma BoundMoves(ps: seq<Pair>, mid: nat, key: string)
    requires Sorted(ps) && mid < |ps| && Less(ps[mid].key, key)
    ensures LowBound(ps, mid + 1, key)
  {
    forall i | 0 <= i < mid ensures Less(ps[i].key, key) {
      LessOrder(ps[i].key, ps[mid].key, key);
    }
  }

  lemma AboveMoves(ps: seq<Pair>, mid: nat, key: string)
    requires Sorted(ps) && mid < |ps| && Compare(ps[mid].key, key) > 0
    ensures forall i :: mid <= i < |ps| ==> Less(key, ps[i].key)
  {
    LessOrder(ps[mid].key, key, key);
    forall i | mid < i < |ps| ensures Less(key, ps[i].key) {
      LessOrder(key, ps[mid].key, ps[i].key);
    }
  }

  lemma FoundBound(ps: seq<Pair>, mid: nat, key: string)
    requires Sorted(ps) && mid < |ps| && ps[mid].key == key
    ensures forall next :: Less(key, next) ==> LowBound(ps, mid + 1, next)
  {
    forall next | Less(key, next) ensures LowBound(ps, mid + 1, next) {
      BoundMoves(ps, mid, next);
    }
  }

  lemma MissBound(ps: seq<Pair>, low: nat, key: string)
    requires Sorted(ps) && LowBound(ps, low, key) && forall i :: low <= i < |ps| ==> Less(key, ps[i].key)
    ensures key !in AsMap(ps)
    ensures forall next :: Less(key, next) ==> LowBound(ps, low, next)
  {
    MapOfIn(ps, |ps|, key);
    forall next | Less(key, next) ensures LowBound(ps, low, next) {
      forall i | 0 <= i < low ensures Less(ps[i].key, next) {
        LessOrder(ps[i].key, key, next);
      }
    }
  }

  datatype Lookup = Missing | Found(val: Value)

  /** The value of a key: what searches of one key are for. */
  method Fetch(hs: HStore, key: string, ghost m: Store) returns (r: Lookup)
    requires Stores(hs, m)
    ensures r == if key in m then Found(m[key]) else Missing
  {
    ghost var ps := PairsOf(hs, m);
    var idx, _ := FindKey(hs, 0, key, ps);
    if idx < 0 {
      return Missing;
    }
    Unpacks(hs, ps, idx);
    MapOfIn(ps, |ps|, key);
    return Found(Val(hs, idx));
  }

  // ----- searches for several keys ------------------------------------------

  /** Whether some key of a strictly increasing list is there. */
  method ExistsAny(hs: HStore, keys: seq<Pair>, ghost m: Store) returns (res: bool)
    requires Stores(hs, m) && Sorted(keys)
    ensures res <==> exists i :: 0 <= i < |keys| && keys[i].key in m
  {
    ghost var ps := PairsOf(hs, m);
    hide Packed, Small, AsMap;
    var lowbound := 0;
    for i := 0 to |keys|
      invariant i < |keys| ==> LowBound(ps, lowbound, keys[i].key)
      invariant forall k :: 0 <= k < i ==> keys[k].key !in m
    {
      var idx, low := FindKey(hs, lowbound, keys[i].key, ps);
      if idx >= 0 {
        FoundIn(ps, idx);
        return true;
      }
      NextBound(ps, low, keys, i);
      lowbound := low;
    }
    return false;
  }

  method ExistsAll(hs: HStore, keys: seq<Pair>, ghost m: Store) returns (res: bool)
    requires Stores(hs, m) && Sorted(keys)
    ensures res <==> forall i :: 0 <= i < |keys| ==> keys[i].key in m
  {
    ghost var ps := PairsOf(hs, m);
    hide Packed, Small, AsMap;
    var lowbound := 0;
    for i := 0 to |keys|
      invariant i < |keys| ==> LowBound(ps, lowbound, keys[i].key)
      invariant forall k :: 0 <= k < i ==> keys[k].key in m
    {
      var idx, low := FindKey(hs, lowbound, keys[i].key, ps);
      if idx < 0 {
        return false;
      }
      FoundIn(ps, idx);
      NextBound(ps, low, keys, i);
      lowbound := low;
    }
    return true;
  }

  lemma FoundIn(ps: seq<Pair>, idx: nat)
    requires Sorted(ps) && idx < |ps|
    ensures ps[idx].key in AsMap(ps) && AsMap(ps)[ps[idx].key] == ps[idx].val
  {
    MapOfIn(ps, |ps|, ps[idx].key);
  }

  lemma NextBound(ps: seq<Pair>, low: nat, keys: seq<Pair>, i: nat)
    requires Sorted(keys) && i < |keys|
    requires forall next :: Less(keys[i].key, next) ==> LowBound(ps, low, next)
    ensures i + 1 < |keys| ==> LowBound(ps, low, keys[i + 1].key)
  {
    if i + 1 < |keys| { assert Less(keys[i].key, keys[i + 1].key); }
  }

  /** Whether every pair of the template is in the value. */
  method Contains(val: HStore, tmpl: HStore, ghost m: Store, ghost t: Store) returns (res: bool)
    requires Stores(val, m) && Stores(tmpl, t)
    ensures res <==> forall k :: k in t ==> k in m && m[k] == t[k]
  {
    ghost var ps := PairsOf(val, m);
    ghost var ts := PairsOf(tmpl, t);
    assert |ts| == tmpl.count;
    hide Small, AsMap, Packed, SamePair, Key, Readable, Sorted, LowBound, KeyLen, KeyOff;
    var lastidx, i := 0, 0;
    res := true;
    NoBound(ps, ts);
    while res && i < tmpl.count
      invariant i <= |ts| == tmpl.count && (res && i < |ts| ==> LowBound(ps, lastidx, ts[i].key))
      invariant res ==> forall k :: 0 <= k < i ==> SamePair(m, ts[k])
      invariant !res ==> i > 0 && !SamePair(m, ts[i - 1])
    {
      var key := ReadKey(tmpl, i, ts);
      var idx, low := FindKey(val, lastidx, key, ps);
      if idx >= 0 {
        res := SameValue(tmpl, i, val, idx, ts, ps);
      } else {
        res := false;
      }
      assert res <==> SamePair(m, ts[i]) by { CheckedPair(m, ps, ts[i], idx, res); }
      NextBound(ps, low, ts, i);
      lastidx, i := low, i + 1;
    }
    PairsInMap(m, ts);
  }

  lemma NoBound(ps: seq<Pair>, ts: seq<Pair>)
    ensures ts != [] ==> LowBound(ps, 0, ts[0].key)
  {
  }

  lemma CheckedPair(m: Store, ps: seq<Pair>, p: Pair, idx: int, res: bool)
    requires Sorted(ps) && AsMap(ps) == m && -1 <= idx < |ps|
    requires if idx >= 0 then ps[idx].key == p.key && (res <==> p.val == ps[idx].val) else p.key !in m && !res
    ensures res <==> SamePair(m, p)
  {
    if idx >= 0 { FoundIn(ps, idx); }
  }

  /** Compares two values: both null, or the same bytes. */
  method SameValue(a: HStore, i: nat, b: HStore, j: nat, ghost ps: seq<Pair>, ghost qs: seq<Pair>) returns (same: bool)
    requires Packed(a, ps) && Small(ps) && i < |ps| && Packed(b, qs) && Small(qs) && j < |qs|
    ensures same <==> ps[i].val == qs[j].val
  {
    Unpacks(a, ps, i);
    Unpacks(b, qs, j);
    hide Packed, Small, ValIsNull, ValSize, ValOff;
    if ValIsNull(a, i) != ValIsNull(b, j) {
      return false;
    }
    if ValIsNull(a, i) {
      return true;
    }
    if ValSize(a, i) != ValSize(b, j) {
      return false;
    }
    return Memcmp(Val(a, i).text, Val(b, j).text) == 0;
  }

  predicate SamePair(m: Store, p: Pair) {
    p.key in m && m[p.key] == p.val
  }

  lemma PairsInMap(m: Store, ts: seq<Pair>)
    requires Sorted(ts)
    ensures (forall k :: 0 <= k < |ts| ==> SamePair(m, ts[k])) <==>
      forall k :: k in AsMap(ts) ==> k in m && m[k] == AsMap(ts)[k]
  {
    hide AsMap;
    forall i | 0 <= i < |ts| ensures ts[i].key in AsMap(ts) && AsMap(ts)[ts[i].key] == ts[i].val {
      FoundIn(ts, i);
    }
    forall k | k in AsMap(ts) ensures exists i :: 0 <= i < |ts| && ts[i].key == k {
      KeyIn(ts, k);
    }
  }

  lemma KeyIn(ts: seq<Pair>, k: string)
    requires Sorted(ts) && k in AsMap(ts)
    ensures exists i :: 0 <= i < |ts| && ts[i].key == k
  {
    MapOfIn(ts, |ts|, k);
  }

  // ----- removal -----------------------------------------------------------

  /** What is left of the first i pairs when keys are taken out. */
  function Without(ps: seq<Pair>, i: nat, ks: set<string>): Store
    requires i <= |ps|
  {
    MapOf(ps, i) - ks
  }

  lemma WithoutStep(ps: seq<Pair>, i: nat, ks: set<string>)
    requires i < |ps|
    ensures ps[i].key in ks ==> Without(ps, i + 1, ks) == Without(ps, i, ks)
    ensures ps[i].key !in ks ==> Without(ps, i + 1, ks) == Without(ps, i, ks)[ps[i].key := ps[i].val]
  {
  }

  lemma WithoutEnds(ps: seq<Pair>, ks: set<string>)
    ensures Without(ps, 0, ks) == map[] && Without(ps, |ps|, ks) == AsMap(ps) - ks
  {
  }

  /** Removes one key. */
  method Delete(hs: HStore, key: string, ghost m: Store) returns (out: HStore)
    requires Stores(hs, m)
    ensures Stores(out, m - {key})
  {
    ghost var ps := PairsOf(hs, m);
    assert |ps| == hs.count;
    WithoutEnds(ps, {key});
    hide Small, Packed, Filling, Sorted, Without, AsMap;
    var w := StartFilling(hs, ps);
    ghost var rs := [];
    for i := 0 to hs.count
      invariant fresh(w) && fresh(w.ents) && fresh(w.buf)
      invariant Filling(w, ps, rs, i, Without(ps, i, {key}))
    {
      WithoutStep(ps, i, {key});
      var difference := CompareKey(hs, i, key, ps);
      if difference != 0 {
        rs := TakePair(w, hs, i, ps, rs, Without(ps, i, {key}));
      } else {
        SkipPair(w, i, ps, rs, Without(ps, i, {key}));
      }
    }
    out := FinishFilling(w, ps, rs, m - {key});
  }

  /** hs has the words and the bytes of ps, and perhaps more bytes after them. */
  predicate Loose(hs: HStore, ps: seq<Pair>) {
    && hs.count == |ps| && Entries(hs.entries, ps, true)
    && Flat(ps, |ps|) <= hs.str && hs.varsize == CalcDataSize(hs.count, |hs.str|)
  }

  /** An input returned unchanged, its size taken from the last entry, so that bytes
      after the last value are dropped. */
  method CopyOf(hs: HStore, ghost ps: seq<Pair>) returns (out: HStore)
    requires Small(ps) && Loose(hs, ps)
    ensures Packed(out, ps)
  {
    var bl := 0;
    if hs.count > 0 {
      bl := EndPos(hs.entries[hs.count - 1].val);
      SlotReads(ps, |ps| - 1);
    }
    assert bl == Total(ps, |ps|);
    hide Small, Flat, Total, EndPos;
    out := HStore(CalcDataSize(hs.count, bl), hs.count, hs.entries, hs.str[..bl]);
  }

  /** Removes every key of a strictly increasing list, by merging. */
  method DeleteArray(hs: HStore, keys: seq<Pair>, ghost m: Store) returns (out: HStore)
    requires Stores(hs, m) && Sorted(keys)
    ensures Stores(out, m - AsMap(keys).Keys)
  {
    if |keys| == 0 {
      ghost var ps := PairsOf(hs, m);
      out := CopyOf(hs, ps);
      assert m - AsMap(keys).Keys == m;
    } else {
      out := MergeOut(hs, keys, m);
    }
  }

  method MergeOut(hs: HStore, keys: seq<Pair>, ghost m: Store) returns (out: HStore)
    requires Stores(hs, m) && Sorted(keys)
    ensures Stores(out, m - AsMap(keys).Keys)
  {
    ghost var ps := PairsOf(hs, m);
    ghost var ks := AsMap(keys).Keys;
    assert |ps| == hs.count;
    hide Small, Packed, Filling, Sorted, Behind, AsMap, Without, Compare, Stores;
    WithoutEnds(ps, ks);
    var w := StartFilling(hs, ps);
    ghost var rs := [];
    var i, j := 0, 0;
    BehindNone(keys, ps);
    while i < hs.count
      invariant fresh(w) && fresh(w.ents) && fresh(w.buf)
      invariant i <= |ps| && j <= |keys| && Behind(keys, j, ps, i)
      invariant Filling(w, ps, rs, i, Without(ps, i, ks))
      decreases hs.count - i + |keys| - j
    {
      var difference := -1;
      if j < |keys| {
        difference := CompareKey(hs, i, keys[j].key, ps);
      }
      if difference > 0 {
        PushSmaller(keys, j, ps, i);
        j := j + 1;
      } else {
        WithoutStep(ps, i, ks);
        if difference == 0 {
          FoundIn(keys, j);
          BehindEqual(keys, j, ps, i);
          SkipPair(w, i, ps, rs, Without(ps, i, ks));
          i, j := i + 1, j + 1;
        } else {
          NotAmong(keys, j, ps, i);
          BehindNext(keys, j, ps, i);
          rs := TakePair(w, hs, i, ps, rs, Without(ps, i, ks));
          i := i + 1;
        }
      }
    }
    out := FinishFilling(w, ps, rs, m - ks);
  }

  lemma BehindNone(qs: seq<Pair>, ps: seq<Pair>)
    ensures Behind(qs, 0, ps, 0)
  {
  }

  lemma PushSmaller(qs: seq<Pair>, j: nat, ps: seq<Pair>, i: nat)
    requires Behind(qs, j, ps, i) && j < |qs| && i < |ps| && Sorted(ps) && Compare(ps[i].key, qs[j].key) > 0
    ensures Behind(qs, j + 1, ps, i)
  {
    LessOrder(ps[i].key, qs[j].key, ps[i].key);
    BehindPush(qs, j, ps, i);
  }

  /** What is left of a map when the pairs of another are taken out. */
  function MinusPairs(m: Store, n: Store): Store {
    map k | k in m && !(k in n && n[k] == m[k]) :: m[k]
  }

  function WithoutPairs(ps: seq<Pair>, i: nat, n: Store): Store
    requires i <= |ps|
  {
    MinusPairs(MapOf(ps, i), n)
  }

  lemma WithoutPairsStep(ps: seq<Pair>, i: nat, n: Store)
    requires i < |ps| && Sorted(ps)
    ensures SamePair(n, ps[i]) ==> WithoutPairs(ps, i + 1, n) == WithoutPairs(ps, i, n)
    ensures !SamePair(n, ps[i]) ==> WithoutPairs(ps, i + 1, n) == WithoutPairs(ps, i, n)[ps[i].key := ps[i].val]
  {
    FirstTime(ps, i);
  }

  lemma WithoutPairsEnds(ps: seq<Pair>, n: Store)
    ensures WithoutPairs(ps, 0, n) == map[] && WithoutPairs(ps, |ps|, n) == MinusPairs(AsMap(ps), n)
  {
  }

  lemma FirstTime(ps: seq<Pair>, i: nat)
    requires Sorted(ps) && i < |ps|
    ensures ps[i].key !in MapOf(ps, i)
  {
    MapOfIn(ps, i, ps[i].key);
    LessOrder(ps[i].key, ps[i].key, ps[i].key);
    forall a | 0 <= a < i ensures ps[a].key != ps[i].key {
      assert Less(ps[a].key, ps[i].key);
    }
  }

  /** Removes the pairs that are in the other hstore too, by merging. */
  method DeleteHstore(hs: HStore, hs2: HStore, ghost m: Store, ghost m2: Store) returns (out: HStore)
    requires Stores(hs, m) && Stores(hs2, m2)
    ensures Stores(out, MinusPairs(m, m2))
  {
    if hs2.count == 0 {
      ghost var qs := PairsOf(hs2, m2);
      assert qs == [];
      assert MinusPairs(m, m2) == m;
      ghost var ps := PairsOf(hs, m);
      out := CopyOf(hs, ps);
    } else {
      out := MergePairsOut(hs, hs2, m, m2);
    }
  }

  /** A pair whose key is in the other hstore goes out unless the values agree. */
  method TakeUnlessSame(w: Writer, hs: HStore, i: nat, hs2: HStore, j: nat, ghost ps: seq<Pair>, ghost qs: seq<Pair>,
      ghost rs: seq<Pair>, ghost was: Store)
    returns (ghost rs': seq<Pair>)
    requires Packed(hs, ps) && Small(ps) && Sorted(ps) && i < |ps| && Filling(w, ps, rs, i, was)
    requires Packed(hs2, qs) && Small(qs) && j < |qs|
    modifies w, w.ents, w.buf
    ensures Filling(w, ps, rs', i + 1, if ps[i].val == qs[j].val then was else was[ps[i].key := ps[i].val])
  {
    hide Packed, Small, Sorted, Filling;
    var same := SameValue(hs, i, hs2, j, ps, qs);
    if same {
      SkipPair(w, i, ps, rs, was);
      rs' := rs;
    } else {
      rs' := TakePair(w, hs, i, ps, rs, was);
    }
  }

  lemma PackedCount(hs: HStore, ps: seq<Pair>)
    requires Packed(hs, ps)
    ensures |ps| == hs.count
  {
  }

  /** One round of the merge: the smaller key of the other is passed over, or the
      next pair is dealt with. */
  method MergePairsNext(w: Writer, hs: HStore, i: nat, hs2: HStore, j: nat, ghost ps: seq<Pair>, ghost qs: seq<Pair>,
      ghost rs: seq<Pair>, ghost m2: Store)
    returns (i': nat, j': nat, ghost rs': seq<Pair>)
    requires Packed(hs, ps) && Small(ps) && Sorted(ps) && i < |ps| && Filling(w, ps, rs, i, WithoutPairs(ps, i, m2))
    requires Packed(hs2, qs) && Small(qs) && Sorted(qs) && j <= |qs| && AsMap(qs) == m2 && Behind(qs, j, ps, i)
    modifies w, w.ents, w.buf
    ensures i <= i' <= |ps| && j <= j' <= |qs| && i + j < i' + j' && Behind(qs, j', ps, i')
    ensures Filling(w, ps, rs', i', WithoutPairs(ps, i', m2))
  {
    hide Small, Packed, Filling, Sorted, Behind, AsMap, WithoutPairs, Compare;
    PackedCount(hs2, qs);
    i', j', rs' := i, j, rs;
    var difference := -1;
    if j < hs2.count {
      var key := ReadKey(hs2, j, qs);
      difference := CompareKey(hs, i, key, ps);
    }
    if difference > 0 {
      PushSmaller(qs, j, ps, i);
      j' := j + 1;
    } else {
      ghost var was := WithoutPairs(ps, i, m2);
      WithoutPairsStep(ps, i, m2);
      if difference == 0 {
        FoundIn(qs, j);
        rs' := TakeUnlessSame(w, hs, i, hs2, j, ps, qs, rs, was);
        BehindEqual(qs, j, ps, i);
        i', j' := i + 1, j + 1;
      } else {
        NotAmong(qs, j, ps, i);
        BehindNext(qs, j, ps, i);
        rs' := TakePair(w, hs, i, ps, rs, was);
        i' := i + 1;
      }
    }
  }

  method MergePairsOut(hs: HStore, hs2: HStore, ghost m: Store, ghost m2: Store) returns (out: HStore)
    requires Stores(hs, m) && Stores(hs2, m2)
    ensures Stores(out, MinusPairs(m, m2))
  {
    ghost var ps := PairsOf(hs, m);
    ghost var qs := PairsOf(hs2, m2);
    WithoutPairsEnds(ps, m2);
    assert |ps| == hs.count && |qs| == hs2.count;
    hide Small, Packed, Filling, Sorted, Behind, AsMap, MinusPairs, WithoutPairs, Compare, Stores;
    var w := StartFilling(hs, ps);
    ghost var rs := [];
    var i, j := 0, 0;
    BehindNone(qs, ps);
    while i < hs.count
      invariant fresh(w) && fresh(w.ents) && fresh(w.buf)
      invariant i <= |ps| && j <= |qs| && Behind(qs, j, ps, i)
      invariant Filling(w, ps, rs, i, WithoutPairs(ps, i, m2))
      decreases hs.count - i + hs2.count - j
    {
      i, j, rs := MergePairsNext(w, hs, i, hs2, j, ps, qs, rs, m2);
    }
    out := FinishFilling(w, ps, rs, MinusPairs(m, m2));
  }
}
