/** The packed form of an hstore: a header, two end-position words for each
    pair, and the bytes of all keys and values in one run. */
module HstorePack {
  import opened HstoreOrder
  import B = Buffers

  /** Positions take the low 30 bits of an entry; above them come the null flag
      and the flag of the very first entry. */
  const POS: nat := 0x4000_0000
  const ISNULL: nat := POS
  const ISFIRST: nat := 2 * POS

  /** The largest allocation, hence the largest stored value. */
  const MAXALLOC: nat := B.MAXALLOC

  /** The two words of one pair: where its key ends and where its value ends. */
  datatype Slot = Slot(key: nat, val: nat)

  datatype HStore = HStore(varsize: nat, count: nat, entries: seq<Slot>, str: string)

  function EndPos(e: nat): nat {
    e % POS
  }

  predicate IsNull(e: nat) {
    e / POS % 2 == 1
  }

  predicate IsFirst(e: nat) {
    e / ISFIRST % 2 == 1
  }

  function CalcDataSize(count: nat, lenstr: nat): nat {
    count * 2 * 4 + 8 + lenstr
  }

  // ----- what a list of pairs looks like packed -----------------------------

  function ValText(v: Value): string {
    if v.Null? then [] else v.text
  }

  function ValLen(v: Value): nat {
    |ValText(v)|
  }

  /** The bytes of the first n pairs, and their number. */
  function Flat(ps: seq<Pair>, n: nat): (r: string)
    requires n <= |ps|
    ensures |r| == Total(ps, n)
  {
    if n == 0 then [] else Flat(ps, n - 1) + ps[n - 1].key + ValText(ps[n - 1].val)
  }

  function Total(ps: seq<Pair>, n: nat): nat
    requires n <= |ps|
  {
    if n == 0 then 0 else Total(ps, n - 1) + |ps[n - 1].key| + ValLen(ps[n - 1].val)
  }

  function DataSize(ps: seq<Pair>): nat {
    CalcDataSize(|ps|, Total(ps, |ps|))
  }

  /** The pairs fit in one allocation. */
  predicate Small(ps: seq<Pair>) {
    DataSize(ps) <= MAXALLOC
  }

  function KeyEnd(ps: seq<Pair>, i: nat): nat
    requires i < |ps|
  {
    Total(ps, i) + |ps[i].key|
  }

  function ValEntry(ps: seq<Pair>, i: nat): nat
    requires i < |ps|
  {
    Total(ps, i + 1) + if ps[i].val.Null? then ISNULL else 0
  }

  /** The words for pair i; the first flag is on the first one if first. */
  function SlotOf(ps: seq<Pair>, i: nat, first: bool): Slot
    requires i < |ps|
  {
    Slot(KeyEnd(ps, i) + (if first && i == 0 then ISFIRST else 0), ValEntry(ps, i))
  }

  predicate Entries(es: seq<Slot>, ps: seq<Pair>, first: bool) {
    |es| == |ps| && forall i :: 0 <= i < |ps| ==> es[i] == SlotOf(ps, i, first)
  }

  /** hs is exactly the packed form of ps: no slack in offsets or size. */
  predicate Packed(hs: HStore, ps: seq<Pair>) {
    && hs.count == |ps| && Entries(hs.entries, ps, true)
    && hs.str == Flat(ps, |ps|) && hs.varsize == DataSize(ps)
  }

  /** hs holds the map m, packed and strictly sorted. */
  ghost predicate Stores(hs: HStore, m: Store) {
    exists ps :: Sorted(ps) && Small(ps) && Packed(hs, ps) && AsMap(ps) == m
  }

  lemma PairsOf(hs: HStore, m: Store) returns (ps: seq<Pair>)
    requires Stores(hs, m)
    ensures Sorted(ps) && Small(ps) && Packed(hs, ps) && AsMap(ps) == m
  {
    ps :| Sorted(ps) && Small(ps) && Packed(hs, ps) && AsMap(ps) == m;
  }

  // ----- reading -----------------------------------------------------------

  lemma {:induction false} TotalUp(ps: seq<Pair>, i: nat, n: nat)
    requires i <= n <= |ps|
    ensures Total(ps, i) <= Total(ps, n)
  {
    if i < n { TotalUp(ps, i, n - 1); }
  }

  lemma EndsOf(ps: seq<Pair>, i: nat)
    requires i < |ps|
    ensures KeyEnd(ps, i) == Total(ps, i) + |ps[i].key|
    ensures Total(ps, i + 1) == KeyEnd(ps, i) + |ValText(ps[i].val)|
  {
  }

  lemma FlatStep(ps: seq<Pair>, n: nat)
    requires 0 < n <= |ps|
    ensures Flat(ps, n) == Flat(ps, n - 1) + ps[n - 1].key + ValText(ps[n - 1].val)
  {
  }

  lemma {:induction false} FlatAt(ps: seq<Pair>, n: nat, i: nat)
    requires i < n <= |ps|
    ensures Total(ps, i) <= KeyEnd(ps, i) <= Total(ps, i + 1) <= Total(ps, n)
    ensures Flat(ps, n)[Total(ps, i)..KeyEnd(ps, i)] == ps[i].key
    ensures Flat(ps, n)[KeyEnd(ps, i)..Total(ps, i + 1)] == ValText(ps[i].val)
  {
    hide Flat, Total, KeyEnd;
    TotalUp(ps, i + 1, n);
    EndsOf(ps, i);
    if i < n - 1 {
      FlatAt(ps, n - 1, i);
      FlatKeeps(ps, n, Total(ps, i), KeyEnd(ps, i));
      FlatKeeps(ps, n, KeyEnd(ps, i), Total(ps, i + 1));
    } else {
      FlatLast(ps, i);
    }
  }

  lemma FlatKeeps(ps: seq<Pair>, n: nat, lo: nat, hi: nat)
    requires 0 < n <= |ps| && lo <= hi <= Total(ps, n - 1)
    ensures hi <= Total(ps, n) && Flat(ps, n)[lo..hi] == Flat(ps, n - 1)[lo..hi]
  {
    TotalUp(ps, n - 1, n);
    FlatStep(ps, n);
    hide Flat, Total;
    SliceOfPrefix(Flat(ps, n - 1), ps[n - 1].key, ValText(ps[n - 1].val), lo, hi);
  }

  lemma FlatLast(ps: seq<Pair>, i: nat)
    requires i < |ps|
    ensures Total(ps, i) <= KeyEnd(ps, i) <= Total(ps, i + 1)
    ensures Flat(ps, i + 1)[Total(ps, i)..KeyEnd(ps, i)] == ps[i].key
    ensures Flat(ps, i + 1)[KeyEnd(ps, i)..Total(ps, i + 1)] == ValText(ps[i].val)
  {
    hide Flat, Total, KeyEnd;
    EndsOf(ps, i);
    FlatStep(ps, i + 1);
    SliceOfLast(Flat(ps, i), ps[i].key, ValText(ps[i].val));
  }

  lemma SliceOfPrefix(a: string, b: string, c: string, lo: nat, hi: nat)
    requires lo <= hi <= |a|
    ensures (a + b + c)[lo..hi] == a[lo..hi]
  {
  }

  lemma SliceOfLast(a: string, b: string, c: string)
    ensures (a + b + c)[|a|..|a| + |b|] == b && (a + b + c)[|a| + |b|..|a| + |b| + |c|] == c
  {
  }

  /** Where the bytes of a key or value start, and how many there are. */
  function KeyOff(hs: HStore, i: nat): nat
    requires i < |hs.entries|
  {
    if IsFirst(hs.entries[i].key) || i == 0 then 0 else EndPos(hs.entries[i - 1].val)
  }

  function KeyLen(hs: HStore, i: nat): int
    requires i < |hs.entries|
  {
    EndPos(hs.entries[i].key) - KeyOff(hs, i)
  }

  function ValOff(hs: HStore, i: nat): nat
    requires i < |hs.entries|
  {
    if IsFirst(hs.entries[i].val) then 0 else EndPos(hs.entries[i].key)
  }

  function ValSize(hs: HStore, i: nat): int
    requires i < |hs.entries|
  {
    EndPos(hs.entries[i].val) - ValOff(hs, i)
  }

  predicate ValIsNull(hs: HStore, i: nat)
    requires i < |hs.entries|
  {
    IsNull(hs.entries[i].val)
  }

  lemma Flags(pos: nat)
    requires pos < POS
    ensures EndPos(pos) == pos && !IsNull(pos) && !IsFirst(pos)
    ensures EndPos(pos + ISNULL) == pos && IsNull(pos + ISNULL) && !IsFirst(pos + ISNULL)
    ensures EndPos(pos + ISFIRST) == pos && !IsNull(pos + ISFIRST) && IsFirst(pos + ISFIRST)
  {
  }

  lemma SmallPositions(ps: seq<Pair>, i: nat)
    requires Small(ps) && i < |ps|
    ensures Total(ps, i) <= KeyEnd(ps, i) <= Total(ps, i + 1) < POS
  {
    TotalUp(ps, i + 1, |ps|);
  }

  lemma SlotReads(ps: seq<Pair>, i: nat)
    requires Small(ps) && i < |ps|
    ensures var e := SlotOf(ps, i, true);
      && EndPos(e.key) == KeyEnd(ps, i) && (IsFirst(e.key) <==> i == 0)
      && EndPos(e.val) == Total(ps, i + 1) && !IsFirst(e.val) && (IsNull(e.val) <==> ps[i].val.Null?)
  {
    hide EndPos, IsNull, IsFirst, Small, Total, KeyEnd;
    SmallPositions(ps, i);
    Flags(KeyEnd(ps, i));
    Flags(Total(ps, i + 1));
  }

  /** The accessors find pair i where the layout puts it. */
  lemma ReadsPair(hs: HStore, ps: seq<Pair>, i: nat)
    requires Packed(hs, ps) && Small(ps) && i < |ps|
    ensures i < |hs.entries| && KeyOff(hs, i) == Total(ps, i) && KeyLen(hs, i) == |ps[i].key|
    ensures ValOff(hs, i) == KeyEnd(ps, i) && ValSize(hs, i) == ValLen(ps[i].val)
    ensures ValIsNull(hs, i) <==> ps[i].val.Null?
  {
    hide Flat, EndPos, IsNull, IsFirst, Small, SlotOf;
    SlotReads(ps, i);
    if i > 0 { SlotReads(ps, i - 1); }
  }

  /** The key and value of pair i as the operations read them. */
  function Key(hs: HStore, i: nat): string
    requires i < |hs.entries| && 0 <= KeyLen(hs, i) && KeyOff(hs, i) + KeyLen(hs, i) <= |hs.str|
  {
    hs.str[KeyOff(hs, i)..KeyOff(hs, i) + KeyLen(hs, i)]
  }

  function Val(hs: HStore, i: nat): Value
    requires i < |hs.entries| && 0 <= ValSize(hs, i) && ValOff(hs, i) + ValSize(hs, i) <= |hs.str|
  {
    if ValIsNull(hs, i) then Null else Text(hs.str[ValOff(hs, i)..ValOff(hs, i) + ValSize(hs, i)])
  }

  predicate Readable(hs: HStore, i: nat) {
    && i < |hs.entries| && 0 <= KeyLen(hs, i) && 0 <= ValSize(hs, i)
    && KeyOff(hs, i) + KeyLen(hs, i) == ValOff(hs, i) && ValOff(hs, i) + ValSize(hs, i) <= |hs.str|
    && (ValIsNull(hs, i) ==> ValSize(hs, i) == 0)
  }

  lemma Unpacks(hs: HStore, ps: seq<Pair>, i: nat)
    requires Packed(hs, ps) && Small(ps) && i < |ps|
    ensures Readable(hs, i) && Key(hs, i) == ps[i].key && Val(hs, i) == ps[i].val
    ensures KeyLen(hs, i) + ValSize(hs, i) == Total(ps, i + 1) - Total(ps, i)
  {
    hide Entries, KeyOff, KeyLen, ValOff, ValSize, ValIsNull, Flat, Small, DataSize;
    ReadsPair(hs, ps, i);
    FlatAt(ps, |ps|, i);
  }

  /** One packed form has one list of pairs. */
  lemma UnpacksOnce(hs: HStore, ps: seq<Pair>, qs: seq<Pair>)
    requires Packed(hs, ps) && Packed(hs, qs) && Small(ps) && Small(qs)
    ensures ps == qs
  {
    hide Entries, Flat, Readable, Key, Val, Small;
    forall i | 0 <= i < |ps| ensures ps[i] == qs[i] {
      Unpacks(hs, ps, i);
      Unpacks(hs, qs, i);
    }
  }

  lemma PackedOnce(hs: HStore, other: HStore, ps: seq<Pair>)
    requires Packed(hs, ps) && Packed(other, ps)
    ensures hs == other
  {
    assert hs.entries == other.entries;
  }

  /** The packed form is canonical: one map has one form and one form one map. */
  lemma Canonical(hs: HStore, m: Store, other: HStore, n: Store)
    requires Stores(hs, m) && Stores(other, n)
    ensures hs == other <==> m == n
  {
    hide Stores;
    var ps := PairsOf(hs, m);
    var qs := PairsOf(other, n);
    hide Packed, Small, Sorted, AsMap;
    if hs == other { UnpacksOnce(hs, ps, qs); }
    if m == n {
      SameMapSameList(ps, qs);
      PackedOnce(hs, other, ps);
    }
  }

  // ----- writing -----------------------------------------------------------

  lemma {:induction false} SnocSame(ps: seq<Pair>, p: Pair, n: nat)
    requires n <= |ps|
    ensures Total(ps + [p], n) == Total(ps, n) && Flat(ps + [p], n) == Flat(ps, n)
  {
    if n > 0 { SnocSame(ps, p, n - 1); }
  }

  lemma SnocEnd(ps: seq<Pair>, p: Pair)
    ensures Total(ps + [p], |ps| + 1) == Total(ps, |ps|) + |p.key| + ValLen(p.val)
    ensures Flat(ps + [p], |ps| + 1) == Flat(ps, |ps|) + p.key + ValText(p.val)
  {
    SnocSame(ps, p, |ps|);
  }

  /** Entries for one more pair. */
  lemma EntriesSnoc(es: seq<Slot>, ps: seq<Pair>, p: Pair)
    requires Entries(es, ps, false)
    ensures Entries(es + [Slot(Total(ps, |ps|) + |p.key|, ValEntry(ps + [p], |ps|))], ps + [p], false)
  {
    LastSlot(ps, p);
    hide SlotOf, ValEntry, Total;
    forall i | 0 <= i < |ps| ensures SlotOf(ps + [p], i, false) == SlotOf(ps, i, false) {
      SlotSame(ps, p, i);
    }
  }

  lemma LastSlot(ps: seq<Pair>, p: Pair)
    ensures SlotOf(ps + [p], |ps|, false) == Slot(Total(ps, |ps|) + |p.key|, ValEntry(ps + [p], |ps|))
  {
    SnocSame(ps, p, |ps|);
    hide Total, ValEntry;
  }

  lemma SlotSame(ps: seq<Pair>, p: Pair, i: nat)
    requires i < |ps|
    ensures SlotOf(ps + [p], i, false) == SlotOf(ps, i, false)
  {
    SnocSame(ps, p, i);
    SnocSame(ps, p, i + 1);
    hide Total;
  }

  lemma FirstFlag(es: seq<Slot>, ps: seq<Pair>)
    requires Entries(es, ps, false)
    ensures ps != [] ==> Entries(es[0 := es[0].(key := es[0].key + ISFIRST)], ps, true)
    ensures ps == [] ==> Entries(es, ps, true)
  {
    hide KeyEnd, ValEntry;
  }

  /** The words written for one more pair when the bytes end at ptr. */
  lemma SlotFor(ps: seq<Pair>, p: Pair, ptr: nat)
    requires ptr == Total(ps, |ps|) + |p.key| + ValLen(p.val) < POS
    ensures EndPos(ptr - ValLen(p.val)) == Total(ps, |ps|) + |p.key|
    ensures EndPos(ptr) + (if p.val.Null? then ISNULL else 0) == ValEntry(ps + [p], |ps|)
  {
    hide Total, EndPos, IsNull, IsFirst, Flat;
    SnocEnd(ps, p);
    Flags(ptr - ValLen(p.val));
    Flags(ptr);
  }

  lemma SliceSplits(a: string, src: string, off: nat, klen: nat, vlen: nat)
    requires off + klen + vlen <= |src|
    ensures a + src[off..off + (klen + vlen)] == a + src[off..off + klen] + src[off + klen..off + klen + vlen]
    ensures vlen == 0 ==> a + src[off..off + (klen + vlen)] == a + src[off..off + klen] + []
  {
    assert src[off..off + (klen + vlen)] == src[off..off + klen] + src[off + klen..off + klen + vlen];
  }

  /** An hstore under construction: entries and bytes written so far. */
  class Writer {
    const ents: array<Slot>
    const buf: array<char>
    var nent: nat
    var ptr: nat

    ghost predicate Holds(ps: seq<Pair>)
      reads this, ents, buf
    {
      && nent <= ents.Length && ptr <= buf.Length && nent == |ps| && ptr == Total(ps, |ps|)
      && Entries(ents[..nent], ps, false) && buf[..ptr] == Flat(ps, |ps|)
    }

    /** Room for count pairs and lenstr bytes. */
    constructor (count: nat, lenstr: nat)
      ensures Holds([]) && ents.Length == count && buf.Length == lenstr && fresh(ents) && fresh(buf)
    {
      ents := new Slot[count](_ => Slot(0, 0));
      buf := new char[lenstr](_ => ' ');
      nent, ptr := 0, 0;
    }

    method Append(src: string, off: nat, len: nat)
      requires off + len <= |src| && ptr + len <= buf.Length
      modifies this`ptr, buf
      ensures ptr == old(ptr) + len && buf[..ptr] == old(buf[..ptr]) + src[off..off + len]
    {
      forall k | 0 <= k < len {
        buf[ptr + k] := src[off + k];
      }
      ptr := ptr + len;
      assert buf[..old(ptr)] == old(buf[..ptr]);
      assert buf[old(ptr)..ptr] == src[off..off + len];
    }

    method PushSlot(e: Slot)
      requires nent < ents.Length
      modifies this`nent, ents
      ensures nent == old(nent) + 1 && ents[..nent] == old(ents[..nent]) + [e]
    {
      ents[nent] := e;
      nent := nent + 1;
    }

    /** Copies a pair whose key and value lie next to each other. */
    method CopyItem(src: string, off: nat, klen: nat, vlen: nat, vnull: bool, ghost ps: seq<Pair>, ghost p: Pair)
      requires Holds(ps) && nent < ents.Length && ptr + klen + vlen <= buf.Length && ptr + klen + vlen < POS
      requires off + klen + vlen <= |src| && (vnull ==> vlen == 0)
      requires p == Pair(src[off..off + klen], if vnull then Null else Text(src[off + klen..off + klen + vlen]))
      modifies this, ents, buf
      ensures Holds(ps + [p])
    {
      hide Entries, Flat, Total, EndPos, ValEntry;
      SnocEnd(ps, p);
      SnocSame(ps, p, |ps|);
      EntriesSnoc(ents[..nent], ps, p);
      ghost var es := ents[..nent];
      Append(src, off, klen + vlen);
      SliceSplits(Flat(ps, |ps|), src, off, klen, vlen);
      SlotFor(ps, p, ptr);
      PushSlot(Slot(EndPos(ptr - vlen), EndPos(ptr) + if vnull then ISNULL else 0));
      assert ents[..nent] == es + [Slot(Total(ps, |ps|) + |p.key|, ValEntry(ps + [p], |ps|))];
    }

    /** Adds a pair held apart from any packed form. */
    method AddItem(pair: Pair, ghost ps: seq<Pair>)
      requires Holds(ps) && nent < ents.Length
      requires ptr + |pair.key| + ValLen(pair.val) <= buf.Length && ptr + |pair.key| + ValLen(pair.val) < POS
      modifies this, ents, buf
      ensures Holds(ps + [pair])
    {
      hide Entries, Flat, Total, EndPos, ValEntry;
      SnocEnd(ps, pair);
      SnocSame(ps, pair, |ps|);
      EntriesSnoc(ents[..nent], ps, pair);
      ghost var es := ents[..nent];
      Append(pair.key, 0, |pair.key|);
      var keyEnd := EndPos(ptr);
      SlotFor(ps, pair, ptr + ValLen(pair.val));
      if pair.val.Null? {
        PushSlot(Slot(keyEnd, EndPos(ptr) + ISNULL));
      } else {
        Append(pair.val.text, 0, |pair.val.text|);
        PushSlot(Slot(keyEnd, EndPos(ptr)));
      }
      assert ents[..nent] == es + [Slot(Total(ps, |ps|) + |pair.key|, ValEntry(ps + [pair], |ps|))];
    }

    /** Sets the first flag and closes up what was written. */
    method Finalize(ghost ps: seq<Pair>) returns (hs: HStore)
      requires Holds(ps)
      modifies ents
      ensures Packed(hs, ps)
    {
      hide Entries, Flat;
      FirstFlag(ents[..nent], ps);
      ghost var es := ents[..nent];
      if nent > 0 {
        ents[0] := ents[0].(key := ents[0].key + ISFIRST);
        assert ents[..nent] == es[0 := es[0].(key := es[0].key + ISFIRST)];
      }
      hs := HStore(CalcDataSize(nent, ptr), nent, ents[..nent], buf[..ptr]);
    }
  }

  // ----- pairs to packed form ----------------------------------------------

  datatype Result = TooLong | Ok(hs: HStore)

  /** Packs a list of pairs whose bytes number buflen. */
  method FromPairs(pairs: seq<Pair>, buflen: nat) returns (r: Result)
    requires buflen == Total(pairs, |pairs|)
    ensures r.Ok? <==> Small(pairs)
    ensures r.Ok? ==> Packed(r.hs, pairs)
  {
    var len := CalcDataSize(|pairs|, buflen);
    if len > MAXALLOC {
      return TooLong;
    }
    var w := new Writer(|pairs|, buflen);
    hide Packed, Small, Total, Flat;
    for i := 0 to |pairs|
      invariant fresh(w) && fresh(w.ents) && fresh(w.buf) && w.ents.Length == |pairs| && w.buf.Length == buflen
      invariant w.Holds(pairs[..i])
    {
      PrefixTotal(pairs, i);
      PrefixTotal(pairs, i + 1);
      assert pairs[..i] + [pairs[i]] == pairs[..i + 1];
      TotalUp(pairs, i + 1, |pairs|);
      w.AddItem(pairs[i], pairs[..i]);
    }
    assert pairs[..|pairs|] == pairs;
    var hs := w.Finalize(pairs);
    return Ok(hs);
  }

  lemma {:induction false} PrefixSame(ps: seq<Pair>, i: nat, n: nat)
    requires n <= i <= |ps|
    ensures Total(ps[..i], n) == Total(ps, n)
  {
    if n > 0 { PrefixSame(ps, i, n - 1); }
  }

  lemma PrefixTotal(ps: seq<Pair>, i: nat)
    requires i <= |ps|
    ensures Total(ps[..i], i) == Total(ps, i)
  {
    PrefixSame(ps, i, i);
  }
}
