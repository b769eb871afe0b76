/** Values of the old hstore format and their conversion in place. An old entry
    has the size of a new pair of entries: two lengths of 16 bits, then the null
    flag and a position. */
module HstoreUpgrade {
  import opened HstoreOrder
  import opened HstorePack

  const NEWVERSION: nat := 0x8000_0000

  /** A value as stored: its declared size, the count word, the entry words for
      that count, and the bytes after them. */
  datatype Raw = Raw(varsize: nat, size: nat, slots: seq<Slot>, str: string)

  function HsCount(size: nat): nat {
    size % 0x1000_0000
  }

  predicate HasFlag(size: nat) {
    size / NEWVERSION % 2 == 1
  }

  /** The entry words and the bytes that belong to the value are there. */
  predicate WellFormed(raw: Raw) {
    raw.varsize <= MAXALLOC && |raw.slots| == HsCount(raw.size) &&
    |raw.str| == if raw.varsize >= CalcDataSize(|raw.slots|, 0) then raw.varsize - CalcDataSize(|raw.slots|, 0) else 0
  }

  // ----- the old format ------------------------------------------------------

  function OldKeyLen(e: Slot): nat {
    e.key % 0x1_0000
  }

  function OldValLen(e: Slot): nat {
    e.key / 0x1_0000 % 0x1_0000
  }

  predicate OldIsNull(e: Slot) {
    e.val % 2 == 1
  }

  function OldPos(e: Slot): nat {
    e.val / 2 % 0x8000_0000
  }

  function OldLen(e: Slot): nat {
    OldKeyLen(e) + if OldIsNull(e) then 0 else OldValLen(e)
  }

  function OldTotal(es: seq<Slot>, n: nat): nat
    requires n <= |es|
  {
    if n == 0 then 0 else OldTotal(es, n - 1) + OldLen(es[n - 1])
  }

  /** Entries lie one after the other and key lengths do not fall. */
  predicate OldEntries(es: seq<Slot>) {
    (forall i :: 0 < i < |es| ==> OldKeyLen(es[i - 1]) <= OldKeyLen(es[i])) &&
    forall i :: 0 <= i < |es| ==> OldPos(es[i]) == OldTotal(es, i)
  }

  predicate IsOld(raw: Raw) {
    raw.size == 0 ||
    (raw.size <= 0xFFF_FFFF && CalcDataSize(|raw.slots|, OldTotal(raw.slots, |raw.slots|)) <= raw.varsize &&
     OldEntries(raw.slots))
  }

  /** Key lengths do not fall. */
  method OldKeysRise(es: seq<Slot>) returns (ok: bool)
    requires es != []
    ensures ok <==> forall i :: 0 < i < |es| ==> OldKeyLen(es[i - 1]) <= OldKeyLen(es[i])
  {
    hide OldKeyLen;
    for i := 1 to |es|
      invariant forall k :: 0 < k < i ==> OldKeyLen(es[k - 1]) <= OldKeyLen(es[k])
    {
      if OldKeyLen(es[i]) < OldKeyLen(es[i - 1]) {
        return false;
      }
    }
    return true;
  }

  /** Entries lie one after the other; where the last one ends. */
  method OldPlaced(es: seq<Slot>) returns (ok: bool, lastpos: nat)
    ensures ok <==> forall i :: 0 <= i < |es| ==> OldPos(es[i]) == OldTotal(es, i)
    ensures ok ==> lastpos == OldTotal(es, |es|)
  {
    hide OldKeyLen, OldValLen, OldPos, OldIsNull;
    lastpos := 0;
    for i := 0 to |es|
      invariant lastpos == OldTotal(es, i)
      invariant forall k :: 0 <= k < i ==> OldPos(es[k]) == OldTotal(es, k)
    {
      if OldPos(es[i]) != lastpos {
        return false, 0;
      }
      lastpos := lastpos + OldKeyLen(es[i]) + if OldIsNull(es[i]) then 0 else OldValLen(es[i]);
    }
    return true, lastpos;
  }

  /** The old-format check: 0 not valid, 1 valid with slack, 2 exact. */
  method ValidOldFormat(raw: Raw) returns (v: nat)
    requires WellFormed(raw) && raw.size < 0x1_0000_0000
    ensures v <= 2 && (v != 0 <==> IsOld(raw))
    ensures v == 2 <==>
      IsOld(raw) && (raw.size == 0 || raw.varsize == CalcDataSize(|raw.slots|, OldTotal(raw.slots, |raw.slots|)))
  {
    hide OldKeyLen, OldPos, OldTotal, HsCount, HasFlag;
    var es, count := raw.slots, raw.size;
    CountOf(count);
    FirstTotal(es);
    if HasFlag(raw.size) {
      if raw.size <= 0xFFF_FFFF { SmallSize(raw.size); }
      return 0;
    }
    if count == 0 {
      return 2;
    }
    if count > 0xFFF_FFFF {
      return 0;
    }
    assert |es| == count;
    if CalcDataSize(count, 0) > raw.varsize || OldPos(es[0]) != 0 {
      return 0;
    }
    var rise := OldKeysRise(es);
    if !rise {
      return 0;
    }
    var placed, lastpos := OldPlaced(es);
    if !placed {
      return 0;
    }
    var vsize := CalcDataSize(count, lastpos);
    if vsize > raw.varsize {
      return 0;
    }
    return if vsize != raw.varsize then 1 else 2;
  }

  lemma {:induction false} OldTotalUp(es: seq<Slot>, i: nat, n: nat)
    requires i <= n <= |es|
    ensures OldTotal(es, i) <= OldTotal(es, n)
  {
    if i < n { OldTotalUp(es, i, n - 1); }
  }

  /** The pair an old entry describes. */
  function OldPair(e: Slot, str: string): Pair
    requires OldPos(e) + OldLen(e) <= |str|
  {
    var k := OldPos(e) + OldKeyLen(e);
    Pair(str[OldPos(e)..k], if OldIsNull(e) then Null else Text(str[k..k + OldValLen(e)]))
  }

  lemma OldInside(raw: Raw, i: nat)
    requires WellFormed(raw) && IsOld(raw) && raw.size != 0 && i < |raw.slots|
    ensures OldPos(raw.slots[i]) == OldTotal(raw.slots, i)
    ensures OldPos(raw.slots[i]) + OldLen(raw.slots[i]) == OldTotal(raw.slots, i + 1) <= |raw.str|
  {
    hide OldPos, OldLen, OldKeyLen, OldValLen, OldIsNull;
    OldTotalUp(raw.slots, i + 1, |raw.slots|);
  }

  /** The pairs of an old value. */
  ghost function OldPairs(raw: Raw): seq<Pair>
    requires WellFormed(raw) && IsOld(raw) && raw.size != 0
  {
    seq(|raw.slots|, i requires 0 <= i < |raw.slots| => OldInside(raw, i); OldPair(raw.slots[i], raw.str))
  }

  lemma OldPairAt(raw: Raw, i: nat)
    requires WellFormed(raw) && IsOld(raw) && raw.size != 0 && i < |raw.slots|
    ensures |OldPairs(raw)| == |raw.slots| && OldPos(raw.slots[i]) + OldLen(raw.slots[i]) <= |raw.str|
    ensures OldPairs(raw)[i] == OldPair(raw.slots[i], raw.str)
  {
    OldInside(raw, i);
    hide IsOld, WellFormed, OldPair, OldTotal, OldLen, OldPos;
  }

  lemma OldCount(raw: Raw)
    requires WellFormed(raw) && IsOld(raw) && raw.size != 0
    ensures |OldPairs(raw)| == |raw.slots|
  {
  }

  /** An old entry's bytes are the bytes of its pair. */
  lemma OldPairBytes(e: Slot, str: string)
    requires OldPos(e) + OldLen(e) <= |str|
    ensures var p := OldPair(e, str);
      |p.key| == OldKeyLen(e) && ValLen(p.val) == OldLen(e) - OldKeyLen(e) && (p.val.Null? <==> OldIsNull(e)) &&
      str[..OldPos(e)] + p.key + ValText(p.val) == str[..OldPos(e) + OldLen(e)]
  {
    hide OldPos, OldKeyLen, OldValLen, OldIsNull;
    JoinSlices(str, OldPos(e), OldKeyLen(e), if OldIsNull(e) then 0 else OldValLen(e));
  }

  lemma {:induction false} OldPairsTotal(raw: Raw, n: nat)
    requires WellFormed(raw) && IsOld(raw) && raw.size != 0 && n <= |raw.slots|
    ensures n <= |OldPairs(raw)| && Total(OldPairs(raw), n) == OldTotal(raw.slots, n)
    ensures OldTotal(raw.slots, n) <= |raw.str| && Flat(OldPairs(raw), n) == raw.str[..OldTotal(raw.slots, n)]
  {
    hide OldPairs, IsOld, WellFormed, OldPos, OldLen, OldPair;
    if n > 0 {
      OldPairsTotal(raw, n - 1);
      OldInside(raw, n - 1);
      OldPairAt(raw, n - 1);
      OldPairBytes(raw.slots[n - 1], raw.str);
    } else {
      OldCount(raw);
      assert raw.str[..0] == [];
    }
  }

  lemma JoinSlices(s: string, p: nat, k: nat, v: nat)
    requires p + k + v <= |s|
    ensures s[..p] + s[p..p + k] + s[p + k..p + k + v] == s[..p + k + v]
    ensures v == 0 ==> s[..p] + s[p..p + k] + [] == s[..p + k + v]
  {
  }

  // ----- conversion ----------------------------------------------------------

  /** The new words for an old entry. */
  function NewSlot(e: Slot): Slot {
    var vallen := if OldIsNull(e) then 0 else OldValLen(e);
    Slot(EndPos(OldPos(e) + OldKeyLen(e)),
         EndPos(OldPos(e) + OldKeyLen(e) + vallen) + if OldIsNull(e) then ISNULL else 0)
  }

  lemma OldSmall(raw: Raw)
    requires WellFormed(raw) && IsOld(raw) && raw.size != 0
    ensures Small(OldPairs(raw)) && |OldPairs(raw)| == |raw.slots|
  {
    OldPairsTotal(raw, |raw.slots|);
    OldCount(raw);
    hide OldPairs, OldEntries, Flat;
  }

  lemma NewSlotOf(e: Slot, keyEnd: nat, valEnd: nat)
    requires OldPos(e) + OldKeyLen(e) == keyEnd && OldPos(e) + OldLen(e) == valEnd && keyEnd <= valEnd < POS
    ensures NewSlot(e) == Slot(keyEnd, valEnd + if OldIsNull(e) then ISNULL else 0)
  {
    hide OldPos, OldKeyLen, OldValLen, OldIsNull, EndPos;
    Flags(keyEnd);
    Flags(valEnd);
  }

  lemma NewSlotIs(raw: Raw, i: nat)
    requires WellFormed(raw) && IsOld(raw) && raw.size != 0 && i < |raw.slots|
    ensures i < |OldPairs(raw)| && NewSlot(raw.slots[i]) == SlotOf(OldPairs(raw), i, false)
  {
    hide OldPairs, IsOld, WellFormed, OldPos, OldKeyLen, OldLen, OldIsNull, Total, OldTotal, Small, NewSlot, OldPair;
    var e, ps := raw.slots[i], OldPairs(raw);
    OldSmall(raw);
    OldInside(raw, i);
    OldPairAt(raw, i);
    OldPairBytes(e, raw.str);
    OldPairsTotal(raw, i);
    OldPairsTotal(raw, i + 1);
    SmallPositions(ps, i);
    NewSlotOf(e, KeyEnd(ps, i), Total(ps, i + 1));
  }

  /** Overwrites the old entries one by one. */
  method Rewrite(raw: Raw, es: array<Slot>)
    requires WellFormed(raw) && IsOld(raw) && raw.size != 0 && es[..] == raw.slots
    modifies es
    ensures Entries(es[..], OldPairs(raw), false)
  {
    hide OldPairs, IsOld, WellFormed, SlotOf, NewSlot;
    ghost var ps := OldPairs(raw);
    OldCount(raw);
    for i := 0 to es.Length
      invariant forall k :: 0 <= k < i ==> es[k] == SlotOf(ps, k, false)
      invariant forall k :: i <= k < es.Length ==> es[k] == raw.slots[k]
    {
      NewSlotIs(raw, i);
      es[i] := NewSlot(es[i]);
    }
  }

  /** Overwrites the old entries with new ones and trims the value. The pairs
      stay what they were, packed exactly. */
  method Convert(raw: Raw) returns (hs: HStore)
    requires WellFormed(raw) && IsOld(raw) && raw.size != 0
    ensures Packed(hs, OldPairs(raw)) && Small(OldPairs(raw))
  {
    hide OldPairs, IsOld, Packed, Small, Entries, Flat, OldTotal, Total;
    var n := |raw.slots|;
    var es := new Slot[n](i requires 0 <= i < n => raw.slots[i]);
    assert es[..] == raw.slots;
    Rewrite(raw, es);
    OldCount(raw);
    OldSmall(raw);
    OldPairsTotal(raw, n);
    FirstFlag(es[..], OldPairs(raw));
    assert n > 0 by { SomeSlots(raw); }
    hs := SetFirst(raw, es, OldPairs(raw), es[..]);
  }

  lemma SomeSlots(raw: Raw)
    requires WellFormed(raw) && IsOld(raw) && raw.size != 0
    ensures |raw.slots| == raw.size
  {
    CountOf(raw.size);
    hide HsCount, OldEntries, OldTotal;
  }

  lemma CountOf(size: nat)
    ensures size <= 0xFFF_FFFF ==> HsCount(size) == size
  {
  }

  method SetFirst(raw: Raw, es: array<Slot>, ghost ps: seq<Pair>, ghost was: seq<Slot>) returns (hs: HStore)
    requires es.Length > 0 && es[..] == was && Entries(was[0 := was[0].(key := was[0].key + ISFIRST)], ps, true)
    requires |ps| == es.Length && Small(ps) && Total(ps, |ps|) <= |raw.str| && Flat(ps, |ps|) == raw.str[..Total(ps, |ps|)]
    modifies es
    ensures Packed(hs, ps)
  {
    es[0] := es[0].(key := es[0].key + ISFIRST);
    assert es[..] == was[0 := was[0].(key := was[0].key + ISFIRST)];
    SlotReads(ps, |ps| - 1);
    hide Flat, Small;
    var bl := EndPos(es[es.Length - 1].val);
    assert es[..][es.Length - 1] == SlotOf(ps, |ps| - 1, true);
    hs := HStore(CalcDataSize(es.Length, bl), es.Length, es[..], raw.str[..bl]);
  }

  // ----- which format a value has ---------------------------------------------

  /** Positions do not fall, key lengths neither, and no key is null. */
  predicate NewEntries(es: seq<Slot>) {
    && es != [] && IsFirst(es[0].key)
    && (forall i :: 0 <= i < |es| ==> !IsFirst(es[i].val) && EndPos(es[i].key) <= EndPos(es[i].val))
    && (forall i :: 0 < i < |es| ==> !IsFirst(es[i].key) && EndPos(es[i - 1].val) <= EndPos(es[i].key))
    && (forall i :: 0 < i < |es| ==> NewKeyLen(es, i - 1) <= NewKeyLen(es, i) && !IsNull(es[i].key))
  }

  function NewKeyLen(es: seq<Slot>, i: nat): int
    requires i < |es|
  {
    EndPos(es[i].key) - if i == 0 then 0 else EndPos(es[i - 1].val)
  }

  function NewEnd(es: seq<Slot>): nat {
    if es == [] then 0 else EndPos(es[|es| - 1].val)
  }

  predicate IsNew(raw: Raw) {
    HasFlag(raw.size) || raw.slots == [] ||
    (CalcDataSize(|raw.slots|, NewEnd(raw.slots)) <= raw.varsize && NewEntries(raw.slots))
  }

  /** The new-format check, in the same three values. */
  method ValidNewFormat(raw: Raw) returns (v: nat)
    requires WellFormed(raw)
    ensures v <= 2 && (v != 0 <==> IsNew(raw))
    ensures v == 2 <==>
      IsNew(raw) &&
      (HasFlag(raw.size) || raw.slots == [] || raw.varsize == CalcDataSize(|raw.slots|, NewEnd(raw.slots)))
  {
    hide EndPos, IsFirst, IsNull, HsCount, HasFlag;
    var es := raw.slots;
    var vsize := CalcDataSize(|es|, NewEnd(es));
    if HasFlag(raw.size) || |es| == 0 {
      return 2;
    }
    if !IsFirst(es[0].key) || vsize > raw.varsize {
      return 0;
    }
    var placed := NewPlaced(es);
    if !placed {
      return 0;
    }
    var rise := NewKeysRise(es);
    if !rise {
      return 0;
    }
    return if vsize != raw.varsize then 1 else 2;
  }

  /** Positions do not fall. */
  method NewPlaced(es: seq<Slot>) returns (ok: bool)
    ensures ok <==>
      && (forall k :: 0 <= k < |es| ==> !IsFirst(es[k].val) && EndPos(es[k].key) <= EndPos(es[k].val))
      && (forall k :: 0 < k < |es| ==> !IsFirst(es[k].key) && EndPos(es[k - 1].val) <= EndPos(es[k].key))
  {
    hide EndPos, IsFirst;
    for i := 0 to |es|
      invariant forall k :: 0 <= k < i ==> !IsFirst(es[k].val) && EndPos(es[k].key) <= EndPos(es[k].val)
      invariant forall k :: 0 < k < i ==> !IsFirst(es[k].key) && EndPos(es[k - 1].val) <= EndPos(es[k].key)
    {
      if i > 0 && (IsFirst(es[i].key) || EndPos(es[i].key) < EndPos(es[i - 1].val)) {
        return false;
      }
      if IsFirst(es[i].val) || EndPos(es[i].val) < EndPos(es[i].key) {
        return false;
      }
    }
    return true;
  }

  /** Key lengths do not fall, and no key but the first may be null. */
  method NewKeysRise(es: seq<Slot>) returns (ok: bool)
    requires es != []
    ensures ok <==> forall k :: 0 < k < |es| ==> NewKeyLen(es, k - 1) <= NewKeyLen(es, k) && !IsNull(es[k].key)
  {
    hide EndPos, IsFirst, IsNull, NewKeyLen;
    for i := 1 to |es|
      invariant forall k :: 0 < k < i ==> NewKeyLen(es, k - 1) <= NewKeyLen(es, k) && !IsNull(es[k].key)
    {
      if NewKeyLen(es, i) < NewKeyLen(es, i - 1) || IsNull(es[i].key) {
        return false;
      }
    }
    return true;
  }

  /** Marks a new-format value as such and sets its exact size. */
  function Marked(raw: Raw): HStore {
    var bl := NewEnd(raw.slots);
    HStore(CalcDataSize(|raw.slots|, bl), |raw.slots|, raw.slots, if bl <= |raw.str| then raw.str[..bl] else raw.str)
  }

  /** A new-format value, with or without slack after it, becomes its exact form. */
  lemma MarkedPacked(raw: Raw, ps: seq<Pair>)
    requires Small(ps) && Entries(raw.slots, ps, true) && Flat(ps, |ps|) <= raw.str
    ensures Packed(Marked(raw), ps)
  {
    if ps != [] { SlotReads(ps, |ps| - 1); }
    hide Flat, SlotOf, EndPos, Total, Small;
    if ps == [] { assert Total(ps, 0) == 0 by { TotalNone(ps); } }
  }

  lemma TotalNone(ps: seq<Pair>)
    ensures Total(ps, 0) == 0
  {
  }

  datatype Upgraded = Invalid | Value(hs: HStore)

  /** The first entry shows the new format before anything is checked. */
  predicate FastTrack(raw: Raw) {
    raw.size == 0 || (raw.varsize < 32768 && raw.slots != [] && IsFirst(raw.slots[0].key))
  }

  /** An old value is taken for a new one before it is checked exactly when it is
      short and the first of its value lengths has its top bit set. */
  lemma OldTakenForNew(raw: Raw)
    requires WellFormed(raw) && IsOld(raw) && raw.size != 0 && raw.slots[0].key < 0x1_0000_0000
    ensures FastTrack(raw) <==> raw.varsize < 32768 && OldValLen(raw.slots[0]) >= 0x8000
    ensures FastTrack(raw) ==> OldIsNull(raw.slots[0])
  {
    SomeSlots(raw);
    FirstBit(raw.slots[0].key);
    OldInside(raw, 0);
  }

  lemma FirstBit(w: nat)
    requires w < 0x1_0000_0000
    ensures IsFirst(w) <==> w / 0x1_0000 % 0x1_0000 >= 0x8000
  {
  }

  /** The entry words have 32 bits. */
  predicate Words(raw: Raw) {
    forall i :: 0 <= i < |raw.slots| ==> raw.slots[i].key < 0x1_0000_0000 && raw.slots[i].val < 0x1_0000_0000
  }

  /** And then what it becomes is not its packed form: its first value word is 1, as
      a new word a value that is not null. */
  lemma TakenIsLost(raw: Raw)
    requires WellFormed(raw) && IsOld(raw) && raw.size != 0 && Words(raw) && FastTrack(raw)
    ensures !Packed(Marked(raw), OldPairs(raw))
  {
    hide OldPairs, SlotOf, IsOld, WellFormed, OldPos, OldIsNull, OldTotal, FastTrack;
    SomeSlots(raw);
    OldTakenForNew(raw);
    OldInside(raw, 0);
    OldPairAt(raw, 0);
    FirstTotal(raw.slots);
    OneIsNotNull(raw.slots[0], OldPairs(raw));
    assert Marked(raw).entries[0] != SlotOf(OldPairs(raw), 0, true);
  }

  lemma FirstTotal(es: seq<Slot>)
    ensures OldTotal(es, 0) == 0
  {
  }

  lemma OneIsNotNull(e: Slot, ps: seq<Pair>)
    requires OldPos(e) == 0 && OldIsNull(e) && e.val < 0x1_0000_0000 && ps != [] && ps[0].val.Null?
    ensures e.val == 1 && SlotOf(ps, 0, true).val >= ISNULL
  {
  }

  /** What every reader of an hstore does first. */
  method Upgrade(raw: Raw) returns (r: Upgraded)
    requires WellFormed(raw) && raw.size < 0x1_0000_0000
    ensures r.Invalid? <==> !HasFlag(raw.size) && !FastTrack(raw) && !IsOld(raw) && !IsNew(raw)
    ensures !HasFlag(raw.size) && !FastTrack(raw) && IsOld(raw) ==>
      r.Value? && Packed(r.hs, OldPairs(raw)) && Small(OldPairs(raw))
    ensures !r.Invalid? && !(!HasFlag(raw.size) && !FastTrack(raw) && IsOld(raw)) && !HasFlag(raw.size) ==>
      r.hs == Marked(raw)
    ensures IsOld(raw) && raw.size != 0 && Words(raw) ==>
      r.Value? && (Packed(r.hs, OldPairs(raw)) <==> !FastTrack(raw))
    ensures HasFlag(raw.size) ==> r.Value? && r.hs == HStore(raw.varsize, |raw.slots|, raw.slots, raw.str)
  {
    if IsOld(raw) && raw.size != 0 { NoFlag(raw); }
    hide IsFirst, EndPos, HasFlag, HsCount, Packed, Small, OldPairs, IsNew;
    if HasFlag(raw.size) {
      return Value(HStore(raw.varsize, |raw.slots|, raw.slots, raw.str));
    }
    if FastTrack(raw) {
      if IsOld(raw) && raw.size != 0 && Words(raw) { TakenIsLost(raw); }
      return Value(Marked(raw));
    }
    var validNew := ValidNewFormat(raw);
    var validOld := ValidOldFormat(raw);
    if validOld == 0 {
      if validNew != 0 {
        return Value(Marked(raw));
      }
      return Invalid;
    }
    var hs := Convert(raw);
    return Value(hs);
  }

  lemma NoFlag(raw: Raw)
    requires IsOld(raw) && raw.size != 0
    ensures !HasFlag(raw.size)
  {
    hide OldEntries, OldTotal, HasFlag;
    SmallSize(raw.size);
  }

  lemma SmallSize(size: nat)
    requires size <= 0xFFF_FFFF
    ensures !HasFlag(size)
  {
  }

  /** The old value of one key "a" whose null value has the length 0x8000 is taken for
      a new one, with the empty string for the null. */
  lemma NullBecomesEmpty()
    ensures var raw := Raw(17, 1, [Slot(0x8000_0001, 1)], "a");
      && WellFormed(raw) && IsOld(raw) && Words(raw) && FastTrack(raw)
      && OldPairs(raw) == [Pair("a", Null)] && Packed(Marked(raw), [Pair("a", Text(""))])
  {
    OldSide();
    NewSide();
    hide IsOld, WellFormed, FastTrack, Packed, Marked, OldPairs;
  }

  lemma OldSide()
    ensures var raw := Raw(17, 1, [Slot(0x8000_0001, 1)], "a");
      WellFormed(raw) && IsOld(raw) && FastTrack(raw) && OldPairs(raw) == [Pair("a", Null)]
  {
    var raw := Raw(17, 1, [Slot(0x8000_0001, 1)], "a");
    var es := raw.slots;
    assert OldTotal(es, 0) == 0 && OldTotal(es, 1) == 1;
    OldPairAt(raw, 0);
    assert raw.str[0..1] == "a";
    assert OldPairs(raw)[0] == Pair("a", Null);
  }

  lemma NewSide()
    ensures Packed(Marked(Raw(17, 1, [Slot(0x8000_0001, 1)], "a")), [Pair("a", Text(""))])
  {
    var ps := [Pair("a", Text(""))];
    assert Total(ps, 0) == 0 && Total(ps, 1) == 1;
    assert Flat(ps, 0) == [] && Flat(ps, 1) == "a";
    assert EndPos(1) == 1;
  }
}
