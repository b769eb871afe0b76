/** One page of a bloom index: what the in-place page routines do to it. */
module BloomPage {
  import opened BloomSign

  /** Bytes of a page left for tuples: the block less the page header and the
      aligned special area. */
  const SPACE: nat := 8192 - 24 - 8

  /** An index tuple. The number id tells insertions apart; the index stores
      only tid, the address of the heap row, and sign. */
  datatype Tuple = Tuple(id: nat, tid: nat, sign: Words)

  datatype Page = MetaPage | NewPage | DataPage(deleted: bool, tuples: seq<Tuple>)

  predicate Usable(p: Page) {
    p.NewPage? || (p.DataPage? && p.deleted)
  }

  /** A tuple of the given size fits beside n others. */
  predicate Fits(size: nat, n: nat) {
    SPACE - n * size >= size
  }

  /** What the page holds after an insertion has (re)initialised it if need be. */
  function Initialised(p: Page): Page {
    if Usable(p) then DataPage(false, []) else p
  }

  function Added(p: Page, t: Tuple): Page
    requires p.DataPage?
  {
    p.(tuples := p.tuples + [t])
  }

  /** Those of the first n tuples whose rows are not dead, in order. */
  function KeptOf(ts: seq<Tuple>, n: nat, dead: set<nat>): (r: seq<Tuple>)
    requires n <= |ts|
    ensures |r| <= n
  {
    if n == 0 then []
    else
      var rest := KeptOf(ts, n - 1, dead);
      if ts[n - 1].tid in dead then rest else rest + [ts[n - 1]]
  }

  function Kept(ts: seq<Tuple>, dead: set<nat>): seq<Tuple> {
    KeptOf(ts, |ts|, dead)
  }

  lemma {:induction false} KeptOfMembers(ts: seq<Tuple>, n: nat, dead: set<nat>)
    requires n <= |ts|
    ensures forall t :: t in KeptOf(ts, n, dead) <==> t in ts[..n] && t.tid !in dead
  {
    if n > 0 {
      KeptOfMembers(ts, n - 1, dead);
      assert ts[..n] == ts[..n - 1] + [ts[n - 1]];
    }
  }

  lemma KeptMembers(ts: seq<Tuple>, dead: set<nat>)
    ensures forall t :: t in Kept(ts, dead) <==> t in ts && t.tid !in dead
  {
    KeptOfMembers(ts, |ts|, dead);
    assert ts[..|ts|] == ts;
  }

  /** A page after bulk deletion: pages it emptied are marked deleted. */
  function Vacuumed(p: Page, dead: set<nat>): Page {
    if p.DataPage? && !p.deleted then
      var kept := Kept(p.tuples, dead);
      DataPage(kept == [] && p.tuples != [], kept)
    else p
  }

  /** The tuples of a page whose signature covers the scan's, in order. */
  function Matching(ts: seq<Tuple>, sign: Words): (r: seq<Tuple>)
    ensures forall t :: t in r <==> t in ts && Covers(t.sign, sign)
  {
    if ts == [] then []
    else
      var rest := Matching(ts[..|ts| - 1], sign);
      var t := ts[|ts| - 1];
      if Covers(t.sign, sign) then rest + [t] else rest
  }

  function Scanned(p: Page, sign: Words): seq<Tuple> {
    if p.DataPage? && !p.deleted then Matching(p.tuples, sign) else []
  }

  /** Slides the tuples to keep over the dead ones, counting those left twice:
      by where the next one goes and by taking the dead ones off n. */
  method Slide(items: array<Tuple>, n: nat, dead: set<nat>) returns (left: nat, maxoff: nat)
    requires n <= items.Length
    modifies items
    ensures left == maxoff <= n && items[..left] == Kept(old(items[..n]), dead)
  {
    ghost var was, kept := items[..n], [];
    var i := 0;
    left, maxoff := 0, n;
    while i < n
      invariant left <= i <= n && maxoff == n - (i - left)
      invariant kept == KeptOf(was, i, dead) && |kept| == left
      invariant forall k :: 0 <= k < left ==> items[k] == kept[k]
      invariant forall k :: i <= k < n ==> items[k] == was[k]
    {
      if items[i].tid in dead {
        maxoff := maxoff - 1;
      } else {
        kept := kept + [was[i]];
        if left != i {
          items[left] := items[i];
        }
        left := left + 1;
      }
      i := i + 1;
    }
  }

  /** A page in a buffer. */
  class Buffer {
    const size: nat
    const items: array<Tuple>
    var isNew: bool
    var deleted: bool
    var maxoff: nat
    var lower: nat

    ghost predicate Valid()
      reads this, items
    {
      0 < size <= SPACE && items.Length == SPACE / size &&
      (!isNew ==> maxoff * size <= SPACE && maxoff <= items.Length && lower == 24 + maxoff * size)
    }

    ghost function Contents(): Page
      requires Valid()
      reads this, items
    {
      if isNew then NewPage else DataPage(deleted, items[..maxoff])
    }

    /** An all-zero page. */
    constructor (size: nat)
      requires 0 < size <= SPACE
      ensures Valid() && Contents() == NewPage && this.size == size && fresh(items)
    {
      this.size := size;
      items := new Tuple[SPACE / size](_ => Tuple(0, 0, []));
      isNew, deleted, maxoff, lower := true, false, 0, 0;
    }

    method Init()
      requires Valid()
      modifies this
      ensures Valid() && Contents() == DataPage(false, [])
    {
      isNew, deleted, maxoff, lower := false, false, 0, 24;
    }

    /** Adds a tuple at the end when it fits. */
    method AddItem(t: Tuple) returns (ok: bool)
      requires Valid() && !isNew
      modifies this, items
      ensures Valid() && !isNew && deleted == old(deleted) && maxoff == old(maxoff) + if ok then 1 else 0
      ensures ok <==> Fits(size, |old(Contents()).tuples|)
      ensures Contents() == if ok then Added(old(Contents()), t) else old(Contents())
    {
      if SPACE - maxoff * size < size {
        return false;
      }
      OneMoreFits(size, maxoff);
      items[maxoff] := t;
      maxoff := maxoff + 1;
      lower := 24 + maxoff * size;
      assert lower <= 8192 - 8;
      return true;
    }

    /** Inserts into a page that may be new or deleted. */
    method Insert(t: Tuple) returns (ok: bool)
      requires Valid()
      modifies this, items
      ensures Valid()
      ensures var p := Initialised(old(Contents()));
        (ok <==> Fits(size, |p.tuples|)) && (ok ==> Contents() == Added(p, t))
    {
      if isNew || deleted {
        Init();
      }
      ok := AddItem(t);
    }

    /** Removes the dead tuples; maxoff counts down as they are found. */
    method Compact(dead: set<nat>) returns (left: nat)
      requires Valid() && !isNew
      modifies this, items
      ensures Valid() && !isNew && deleted == old(deleted) && maxoff == left <= old(maxoff)
      ensures items[..left] == Kept(old(items[..maxoff]), dead)
    {
      hide Kept;
      ghost var end := maxoff;
      left, maxoff := Slide(items, maxoff, dead);
      FewerFit(size, left, end);
      lower := 24 + left * size;
    }

    /** Bulk deletion on one page; listed says it goes on the new not-full list
        when that has room. */
    method Vacuum(dead: set<nat>) returns (listed: bool)
      requires Valid()
      modifies this, items
      ensures Valid()
      ensures Contents() == Vacuumed(old(Contents()), dead)
      ensures listed <==> Listed(size, old(Contents()), dead)
    {
      if isNew || deleted {
        return false;
      }
      var all := maxoff;
      var left := Compact(dead);
      listed := maxoff != 0 && SPACE - maxoff * size >= size;
      if left != all {
        if maxoff == 0 {
          deleted := true;
        }
      }
    }
  }

  /** The page keeps tuples and has room for another. */
  predicate Listed(size: nat, p: Page, dead: set<nat>) {
    p.DataPage? && !p.deleted && Kept(p.tuples, dead) != [] && Fits(size, |Kept(p.tuples, dead)|)
  }

  lemma OneMoreFits(size: nat, n: nat)
    requires 0 < size && Fits(size, n)
    ensures n < SPACE / size && (n + 1) * size <= SPACE
  {
    assert (n + 1) * size == n * size + size;
    if SPACE / size <= n {
      FewerFit(size, SPACE / size + 1, n + 1);
      assert false;
    }
  }

  lemma FewerFit(size: nat, fewer: nat, n: nat)
    requires fewer <= n
    ensures fewer * size <= n * size
  {
  }

  /** Collects the heap addresses of the matching tuples of a page. */
  method ScanPage(page: Buffer, sign: Words) returns (tids: seq<nat>)
    requires page.Valid()
    ensures tids == Tids(Scanned(page.Contents(), sign))
  {
    tids := [];
    if !page.isNew && !page.deleted {
      ghost var ts := page.items[..page.maxoff];
      var offset := 0;
      while offset < page.maxoff
        invariant offset <= page.maxoff
        invariant tids == Tids(Matching(ts[..offset], sign))
      {
        assert ts[..offset + 1][..offset] == ts[..offset];
        var t := page.items[offset];
        assert t == ts[..offset + 1][offset];
        var res := SignMatches(t.sign, sign);
        if res {
          tids := tids + [t.tid];
        }
        offset := offset + 1;
      }
      assert ts[..offset] == ts;
    }
  }

  function Tids(ts: seq<Tuple>): seq<nat> {
    seq(|ts|, i requires 0 <= i < |ts| => ts[i].tid)
  }

  /** Tests a tuple's signature word by word. */
  method SignMatches(t: Words, s: Words) returns (res: bool)
    ensures res <==> Covers(t, s)
  {
    hide HasBits;
    if |t| != |s| {
      return false;
    }
    for i := 0 to |s|
      invariant forall k :: 0 <= k < i ==> HasBits(t[k], s[k])
    {
      if !HasBits(t[i], s[i]) {
        return false;
      }
    }
    return true;
  }
}
