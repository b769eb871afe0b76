/** What the merge loops over sorted pairs keep from one round to the next. */
module HstoreMerge {
  import opened HstoreOrder
  import opened HstorePack

  /** The first j keys of qs come before the keys of ps from i on. */
  predicate Behind(qs: seq<Pair>, j: nat, ps: seq<Pair>, i: nat) {
    j <= |qs| && forall a, b :: 0 <= a < j && i <= b < |ps| ==> Less(qs[a].key, ps[b].key)
  }

  lemma BehindNext(qs: seq<Pair>, j: nat, ps: seq<Pair>, i: nat)
    requires Behind(qs, j, ps, i)
    ensures Behind(qs, j, ps, i + 1)
  {
  }

  lemma BehindPush(qs: seq<Pair>, j: nat, ps: seq<Pair>, i: nat)
    requires Behind(qs, j, ps, i) && j < |qs| && Sorted(ps)
    requires i < |ps| ==> Less(qs[j].key, ps[i].key)
    ensures Behind(qs, j + 1, ps, i)
  {
    forall b | i <= b < |ps| ensures Less(qs[j].key, ps[b].key) {
      if i < b { LessOrder(qs[j].key, ps[i].key, ps[b].key); }
    }
  }

  lemma BehindEqual(qs: seq<Pair>, j: nat, ps: seq<Pair>, i: nat)
    requires Behind(qs, j, ps, i) && j < |qs| && i < |ps| && Sorted(ps) && qs[j].key == ps[i].key
    ensures Behind(qs, j + 1, ps, i + 1)
  {
  }

  /** A key that comes after the first j and before the rest is none of them. */
  lemma NotAmong(qs: seq<Pair>, j: nat, ps: seq<Pair>, i: nat)
    requires Behind(qs, j, ps, i) && i < |ps| && Sorted(qs)
    requires j < |qs| ==> Compare(ps[i].key, qs[j].key) < 0
    ensures ps[i].key !in AsMap(qs)
  {
    MapOfIn(qs, |qs|, ps[i].key);
    LessOrder(ps[i].key, ps[i].key, ps[i].key);
    forall a | 0 <= a < |qs| ensures qs[a].key != ps[i].key {
      if a < j {
        assert Less(qs[a].key, ps[i].key);
      } else {
        if j < a { assert Less(qs[j].key, qs[a].key); }
        LessOrder(ps[i].key, qs[j].key, qs[a].key);
      }
    }
  }

  lemma NotAmongFirst(qs: seq<Pair>, j: nat, ps: seq<Pair>, i: nat)
    requires Behind(qs, j, ps, i) && i < |ps| && Sorted(qs)
    ensures ps[i].key !in MapOf(qs, j)
  {
    MapOfIn(qs, j, ps[i].key);
    LessOrder(ps[i].key, ps[i].key, ps[i].key);
    forall a | 0 <= a < j ensures qs[a].key != ps[i].key {
      assert Less(qs[a].key, ps[i].key);
    }
  }

  /** rs was taken from the first i pairs of ps and stands for the map m. */
  ghost predicate Taken(rs: seq<Pair>, ps: seq<Pair>, i: nat, m: Store) {
    && i <= |ps| && Sorted(rs) && Behind(rs, |rs|, ps, i) && |rs| <= i
    && Total(rs, |rs|) <= Total(ps, i) && AsMap(rs) == m
  }

  lemma TakeNone(ps: seq<Pair>)
    ensures Taken([], ps, 0, map[])
  {
  }

  lemma Skip(rs: seq<Pair>, ps: seq<Pair>, i: nat, m: Store)
    requires Taken(rs, ps, i, m) && i < |ps|
    ensures Taken(rs, ps, i + 1, m)
  {
  }

  lemma Take(rs: seq<Pair>, ps: seq<Pair>, i: nat, m: Store)
    requires Taken(rs, ps, i, m) && i < |ps| && Sorted(ps)
    ensures Taken(rs + [ps[i]], ps, i + 1, m[ps[i].key := ps[i].val])
  {
    var rs' := rs + [ps[i]];
    hide MapOf;
    SortedSnoc(rs, ps[i]);
    SnocEnd(rs, ps[i]);
    AsMapSnoc(rs, ps[i]);
    forall a, b | 0 <= a < |rs'| && i + 1 <= b < |ps| ensures Less(rs'[a].key, ps[b].key) {
      if a < |rs| { assert Less(rs[a].key, ps[b].key); }
    }
  }

  /** What was taken fits in the space of what it was taken from. */
  lemma TakenFits(rs: seq<Pair>, ps: seq<Pair>, i: nat, m: Store)
    requires Taken(rs, ps, i, m) && Small(ps)
    ensures Small(rs) && Total(rs, |rs|) <= Total(ps, |ps|) < POS
    ensures i < |ps| ==> |rs| < |ps| && Total(rs, |rs|) + Total(ps, i + 1) - Total(ps, i) <= Total(ps, |ps|)
  {
    TotalUp(ps, i, |ps|);
    if i < |ps| { TotalUp(ps, i + 1, |ps|); }
  }

  lemma TakenStores(rs: seq<Pair>, ps: seq<Pair>, m: Store, out: HStore)
    requires Taken(rs, ps, |ps|, m) && Small(ps) && Packed(out, rs)
    ensures Stores(out, m)
  {
    TakenFits(rs, ps, |ps|, m);
  }

  /** The key and value of a pair lie next to each other. */
  lemma PairBytes(hs: HStore, ps: seq<Pair>, i: nat)
    requires Packed(hs, ps) && Small(ps) && i < |ps|
    ensures i < |hs.entries| && 0 <= KeyLen(hs, i) && 0 <= ValSize(hs, i) && (ValIsNull(hs, i) ==> ValSize(hs, i) == 0)
    ensures KeyLen(hs, i) + ValSize(hs, i) == Total(ps, i + 1) - Total(ps, i)
    ensures var off, klen, vlen := KeyOff(hs, i), KeyLen(hs, i), ValSize(hs, i);
      off + klen + vlen <= |hs.str| &&
      ps[i] == Pair(hs.str[off..off + klen],
                    if ValIsNull(hs, i) then Null else Text(hs.str[off + klen..off + klen + vlen]))
  {
    hide Packed, Small, Total, KeyOff, KeyLen, ValOff, ValSize, ValIsNull;
    Unpacks(hs, ps, i);
  }

  /** Copies pair i of a packed hstore. */
  method Copy(w: Writer, hs: HStore, i: nat, ghost ps: seq<Pair>, ghost rs: seq<Pair>)
    requires Packed(hs, ps) && Small(ps) && i < |ps| && w.Holds(rs) && w.nent < w.ents.Length
    requires Total(rs, |rs|) + Total(ps, i + 1) - Total(ps, i) <= w.buf.Length
    requires Total(rs, |rs|) + Total(ps, i + 1) - Total(ps, i) < POS
    modifies w, w.ents, w.buf
    ensures w.Holds(rs + [ps[i]])
  {
    hide Packed, Small, Total, KeyOff, KeyLen, ValSize, ValIsNull, Entries, Flat;
    PairBytes(hs, ps, i);
    w.CopyItem(hs.str, KeyOff(hs, i), KeyLen(hs, i), ValSize(hs, i), ValIsNull(hs, i), rs, ps[i]);
  }

  /** An output being filled from the pairs of ps, now at pair i: rs is in it,
      and stands for m. */
  ghost predicate Filling(w: Writer, ps: seq<Pair>, rs: seq<Pair>, i: nat, m: Store)
    reads w, w.ents, w.buf
  {
    w.Holds(rs) && Taken(rs, ps, i, m) && w.ents.Length == |ps| && w.buf.Length == Total(ps, |ps|)
  }

  /** Allocates as much as the input has. */
  method StartFilling(hs: HStore, ghost ps: seq<Pair>) returns (w: Writer)
    requires Packed(hs, ps)
    ensures fresh(w) && fresh(w.ents) && fresh(w.buf) && Filling(w, ps, [], 0, map[])
  {
    w := new Writer(hs.count, |hs.str|);
    TakeNone(ps);
  }

  /** Copies pair i to the output. */
  method TakePair(w: Writer, hs: HStore, i: nat, ghost ps: seq<Pair>, ghost rs: seq<Pair>, ghost m: Store)
    returns (ghost rs': seq<Pair>)
    requires Packed(hs, ps) && Small(ps) && Sorted(ps) && i < |ps| && Filling(w, ps, rs, i, m)
    modifies w, w.ents, w.buf
    ensures Filling(w, ps, rs', i + 1, m[ps[i].key := ps[i].val])
  {
    hide Packed, Small, Sorted, Taken;
    TakenFits(rs, ps, i, m);
    Copy(w, hs, i, ps, rs);
    Take(rs, ps, i, m);
    rs' := rs + [ps[i]];
  }

  lemma SkipPair(w: Writer, i: nat, ps: seq<Pair>, rs: seq<Pair>, m: Store)
    requires Filling(w, ps, rs, i, m) && i < |ps|
    ensures Filling(w, ps, rs, i + 1, m)
  {
    Skip(rs, ps, i, m);
  }

  method FinishFilling(w: Writer, ghost ps: seq<Pair>, ghost rs: seq<Pair>, ghost m: Store) returns (out: HStore)
    requires Small(ps) && Filling(w, ps, rs, |ps|, m)
    modifies w.ents
    ensures Stores(out, m)
  {
    hide Packed, Small, Taken;
    out := w.Finalize(rs);
    TakenStores(rs, ps, m, out);
  }

  /** Compares the key of pair i with another. */
  method CompareKey(hs: HStore, i: nat, key: string, ghost ps: seq<Pair>) returns (difference: int)
    requires Packed(hs, ps) && Small(ps) && i < |ps|
    ensures difference == Compare(ps[i].key, key)
  {
    Unpacks(hs, ps, i);
    hide Packed, Small, KeyLen, KeyOff;
    if KeyLen(hs, i) == |key| {
      difference := Memcmp(Key(hs, i), key);
    } else {
      difference := if KeyLen(hs, i) > |key| then 1 else -1;
    }
  }

  /** Reads the key of pair i. */
  method ReadKey(hs: HStore, i: nat, ghost ps: seq<Pair>) returns (key: string)
    requires Packed(hs, ps) && Small(ps) && i < |ps|
    ensures key == ps[i].key
  {
    Unpacks(hs, ps, i);
    hide Packed, Small, KeyLen, KeyOff;
    key := Key(hs, i);
  }
}
