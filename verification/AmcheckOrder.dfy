/** What a walk without error says of the order of a level and of the pages below
    an item. */
module AmcheckOrder {
  import opened AmcheckPage
  import opened Amcheck

  // ----- the order of a level ------------------------------------------------

  /** The keys of the real items of a page; those of a half-dead one do not count. */
  function RealKeys(p: Page): seq<int> {
    if HasReal(p) && !p.halfDead then
      seq(|p.lines| - FirstReal(p), i requires 0 <= i < |p.lines| - FirstReal(p) => p.lines[FirstReal(p) + i].key)
    else []
  }

  predicate OnPages(ix: Index, bs: seq<nat>) {
    forall i :: 0 <= i < |bs| ==> bs[i] in ix
  }

  function LevelKeys(ix: Index, bs: seq<nat>, n: nat): seq<int>
    requires n <= |bs| && OnPages(ix, bs)
  {
    if n == 0 then [] else LevelKeys(ix, bs, n - 1) + RealKeys(ix[bs[n - 1]])
  }

  predicate Rising(hks: bool, s: seq<int>) {
    forall i, j :: 0 <= i < j < |s| ==> Below(hks, s[i], s[j])
  }

  lemma {:induction false} NeighboursRise(hks: bool, s: seq<int>, i: nat, j: nat)
    requires i < j < |s| && forall k :: 0 <= k < |s| - 1 ==> Below(hks, s[k], s[k + 1])
    ensures Below(hks, s[i], s[j])
    decreases j
  {
    assert Below(hks, s[j - 1], s[j]);
    if i < j - 1 { NeighboursRise(hks, s, i, j - 1); }
  }

  lemma PageRises(ix: Index, hks: bool, p: Page)
    requires Sane(p) && !p.deleted && (!p.halfDead ==> ItemsOk(ix, hks, p, |p.lines|))
    ensures Rising(hks, RealKeys(p))
  {
    var s := RealKeys(p);
    forall k | 0 <= k < |s| - 1 ensures Below(hks, s[k], s[k + 1]) {
      assert ItemOk(hks, p, FirstReal(p) + k);
    }
    forall i, j | 0 <= i < j < |s| ensures Below(hks, s[i], s[j]) {
      NeighboursRise(hks, s, i, j);
    }
  }

  lemma RisingJoin(hks: bool, a: seq<int>, b: seq<int>)
    requires Rising(hks, a) && Rising(hks, b) && (a != [] && b != [] ==> Below(hks, a[|a| - 1], b[0]))
    ensures Rising(hks, a + b)
  {
    forall i, j | 0 <= i < |a| && 0 <= j < |b| ensures Below(hks, a[i], b[j]) {
      if i < |a| - 1 { assert Below(hks, a[i], a[|a| - 1]); }
      if j > 0 { assert Below(hks, b[0], b[j]); }
    }
  }

  /** The real items at the end of page i and at the start of page k are in order. */
  predicate Joined(ix: Index, hks: bool, bs: seq<nat>, i: nat, k: nat)
    requires OnPages(ix, bs) && i < |bs| && k < |bs|
  {
    var s, t := RealKeys(ix[bs[i]]), RealKeys(ix[bs[k]]);
    s != [] && t != [] ==> Below(hks, s[|s| - 1], t[0])
  }

  /** No page from i to k holds a real item. */
  predicate Empty(ix: Index, bs: seq<nat>, i: nat, k: nat)
    requires OnPages(ix, bs) && k <= |bs|
  {
    forall m :: i <= m < k ==> RealKeys(ix[bs[m]]) == []
  }

  /** Between pages i and k are only pages without real items, one of them alive. */
  predicate Apart(ix: Index, bs: seq<nat>, i: nat, k: nat)
    requires OnPages(ix, bs) && k <= |bs|
  {
    Empty(ix, bs, i + 1, k) && exists m :: i < m < k && !ix[bs[m]].halfDead
  }

  predicate Bridged(ix: Index, hks: bool, bs: seq<nat>)
    requires OnPages(ix, bs)
  {
    forall i, k :: 0 <= i < k < |bs| && Apart(ix, bs, i, k) ==> Joined(ix, hks, bs, i, k)
  }

  /** The last of the first n pages with a real item, -1 when there is none. */
  function LastFull(ix: Index, bs: seq<nat>, n: nat): (r: int)
    requires OnPages(ix, bs) && n <= |bs|
    ensures -1 <= r < n && (r >= 0 ==> RealKeys(ix[bs[r]]) != []) && Empty(ix, bs, r + 1, n)
  {
    if n == 0 then -1 else if RealKeys(ix[bs[n - 1]]) != [] then n - 1 else LastFull(ix, bs, n - 1)
  }

  lemma WalkedPages(l: Level, bs: seq<nat>)
    requires Walked(l, bs)
    ensures OnPages(l.ix, bs)
  {
    hide Fits;
    forall i | 0 <= i < |bs| ensures bs[i] in l.ix { assert StepOk(l, bs, i); }
  }

  lemma PageOf(l: Level, bs: seq<nat>, i: nat)
    requires Walked(l, bs) && i < |bs|
    ensures bs[i] in l.ix && Sane(l.ix[bs[i]]) && !l.ix[bs[i]].deleted && bs[i] == NextOf(l, bs, i) && bs[i] != 0
    ensures l.ix[bs[i]].halfDead ==> l.ix[bs[i]].next != 0
    ensures !l.ix[bs[i]].halfDead ==> PageOk(l.ix, l.hks, l.ix[bs[i]])
  {
    assert StepOk(l, bs, i);
    hide Walked, PageOk, Sane;
  }

  /** Over half-dead pages the search for the right neighbour follows the walk. */
  lemma {:induction false} RightAlong(l: Level, bs: seq<nat>, i: nat, n: nat)
    requires Walked(l, bs) && OnPages(l.ix, bs) && i + 1 + n < |bs|
    requires forall m :: i < m < i + 1 + n ==> l.ix[bs[m]].halfDead
    ensures RightAfter(l.ix, l.ix[bs[i]].next, n) == bs[i + 1 + n]
    ensures forall k :: 0 <= k < n ==> Skipped(l.ix, RightAfter(l.ix, l.ix[bs[i]].next, k))
  {
    hide Walked, PageOk, Sane;
    PageOf(l, bs, i + 1 + n);
    if n > 0 {
      RightAlong(l, bs, i, n - 1);
      PageOf(l, bs, i + n);
    }
  }

  /** Two pages with only half-dead ones between them are in order. */
  lemma NeighbourPages(l: Level, bs: seq<nat>, i: nat, k: nat)
    requires Walked(l, bs) && OnPages(l.ix, bs) && i < k < |bs| && forall m :: i < m < k ==> l.ix[bs[m]].halfDead
    ensures Joined(l.ix, l.hks, bs, i, k)
  {
    hide Walked, Sane, PageOk, Skipped, RightAfter, RealKeys, Below, StopsAfter, BeforePage, HasReal;
    var left, right := l.ix[bs[i]], l.ix[bs[k]];
    if RealKeys(left) != [] && RealKeys(right) != [] {
      KeysMean(left);
      KeysMean(right);
      PageOf(l, bs, i);
      PageOf(l, bs, k);
      PageOf(l, bs, i + 1);
      RightAlong(l, bs, i, k - i - 1);
      StopsAlive(l.ix, left.next, k - i - 1, bs[k]);
      BeforeRight(l.ix, l.hks, left, k - i - 1);
      FirstKey(l.ix, l.hks, left, bs[k]);
    }
  }

  lemma BeforeRight(ix: Index, hks: bool, p: Page, n: nat)
    requires Sane(p) && !p.deleted && HasReal(p) && PageOk(ix, hks, p) && p.next != 0 && StopsAfter(ix, p.next, n)
    ensures BeforePage(ix, hks, p.lines[|p.lines| - 1].key, RightAfter(ix, p.next, n))
  {
    hide ItemsOk, RightAfter, Skipped, Sane, BeforePage;
    var m :| StopsAfter(ix, p.next, m) && BeforePage(ix, hks, p.lines[|p.lines| - 1].key, RightAfter(ix, p.next, m));
    OneStop(ix, p.next, m, n);
  }

  lemma FirstKey(ix: Index, hks: bool, p: Page, b: nat)
    requires RealKeys(p) != [] && b in ix && RealKeys(ix[b]) != [] && BeforePage(ix, hks, p.lines[|p.lines| - 1].key, b)
    ensures Below(hks, RealKeys(p)[|RealKeys(p)| - 1], RealKeys(ix[b])[0])
  {
  }

  lemma KeysMean(p: Page)
    requires RealKeys(p) != []
    ensures HasReal(p) && !p.halfDead
  {
  }

  lemma StopsAlive(ix: Index, b: nat, n: nat, at: nat)
    requires at == RightAfter(ix, b, n) && at in ix && !Ignored(ix[at])
    requires forall k :: 0 <= k < n ==> Skipped(ix, RightAfter(ix, b, k))
    ensures StopsAfter(ix, b, n)
  {
    hide RightAfter;
  }

  lemma {:induction false} RisesTo(l: Level, bs: seq<nat>, n: nat)
    requires Walked(l, bs) && n <= |bs| && OnPages(l.ix, bs) && Bridged(l.ix, l.hks, bs)
    ensures var s, f := LevelKeys(l.ix, bs, n), LastFull(l.ix, bs, n);
      && Rising(l.hks, s)
      && if f < 0 then s == [] else s != [] && s[|s| - 1] == RealKeys(l.ix[bs[f]])[|RealKeys(l.ix[bs[f]])| - 1]
  {
    hide Walked, Below, Rising, RealKeys, Bridged, Sane, PageOk;
    if n > 0 {
      RisesTo(l, bs, n - 1);
      PageOf(l, bs, n - 1);
      OkItems(l.ix, l.hks, l.ix[bs[n - 1]]);
      PageRises(l.ix, l.hks, l.ix[bs[n - 1]]);
      var f := LastFull(l.ix, bs, n - 1);
      if f >= 0 { NextFull(l, bs, f, n - 1); }
      RisingJoin(l.hks, LevelKeys(l.ix, bs, n - 1), RealKeys(l.ix[bs[n - 1]]));
    } else {
      NothingRises(l.hks);
    }
  }

  lemma OkItems(ix: Index, hks: bool, p: Page)
    requires Sane(p) && !p.deleted && (!p.halfDead ==> PageOk(ix, hks, p))
    ensures !p.halfDead ==> ItemsOk(ix, hks, p, |p.lines|)
  {
  }

  lemma NextFull(l: Level, bs: seq<nat>, f: nat, k: nat)
    requires Walked(l, bs) && OnPages(l.ix, bs) && Bridged(l.ix, l.hks, bs) && f < k < |bs| && Empty(l.ix, bs, f + 1, k)
    ensures Joined(l.ix, l.hks, bs, f, k)
  {
    hide Walked, Joined, RealKeys;
    if forall m :: f < m < k ==> l.ix[bs[m]].halfDead { NeighbourPages(l, bs, f, k); } else { assert Apart(l.ix, bs, f, k); }
  }

  lemma NothingRises(hks: bool)
    ensures Rising(hks, [])
  {
  }

  lemma {:induction false} KeysPrefix(ix: Index, bs: seq<nat>, n: nat, m: nat)
    requires OnPages(ix, bs) && n <= m <= |bs|
    ensures LevelKeys(ix, bs, n) <= LevelKeys(ix, bs, m)
  {
    hide RealKeys;
    if n < m { KeysPrefix(ix, bs, n, m - 1); }
  }

  lemma RisingIsJoined(ix: Index, hks: bool, bs: seq<nat>, i: nat, k: nat)
    requires OnPages(ix, bs) && i < k < |bs| && Rising(hks, LevelKeys(ix, bs, |bs|))
    ensures Joined(ix, hks, bs, i, k)
  {
    hide RealKeys, Below;
    var s, t, all := RealKeys(ix[bs[i]]), RealKeys(ix[bs[k]]), LevelKeys(ix, bs, |bs|);
    var left, right := LevelKeys(ix, bs, i + 1), LevelKeys(ix, bs, k + 1);
    KeysPrefix(ix, bs, i + 1, k);
    KeysPrefix(ix, bs, k + 1, |bs|);
    if s != [] && t != [] {
      var p, q := |left| - 1, |right| - |t|;
      assert left[p] == s[|s| - 1] && right[q] == t[0];
      assert all[p] == right[p] == LevelKeys(ix, bs, k)[p] == left[p];
      assert Below(hks, all[p], all[q]);
    }
  }

  /** The real items of a walked level rise from left to right, strictly when keys
      include the heap address, if and only if they do so across pages that are alive
      and hold none: half-dead pages are stepped over, but an empty page is not. */
  lemma LevelRisesIff(l: Level, bs: seq<nat>)
    requires Walked(l, bs)
    ensures OnPages(l.ix, bs) && (Rising(l.hks, LevelKeys(l.ix, bs, |bs|)) <==> Bridged(l.ix, l.hks, bs))
    ensures (forall k :: 0 < k < |bs| - 1 ==> l.ix[bs[k]].halfDead || HasReal(l.ix[bs[k]])) ==>
      Rising(l.hks, LevelKeys(l.ix, bs, |bs|))
  {
    WalkedPages(l, bs);
    if forall k :: 0 < k < |bs| - 1 ==> l.ix[bs[k]].halfDead || HasReal(l.ix[bs[k]]) {
      forall i, k | 0 <= i < k < |bs| ensures !Apart(l.ix, bs, i, k) { NoneApart(l.ix, bs, i, k); }
      assert Bridged(l.ix, l.hks, bs);
    }
    hide Rising, Joined, LevelKeys, Apart, Walked;
    if Bridged(l.ix, l.hks, bs) { RisesTo(l, bs, |bs|); }
    if Rising(l.hks, LevelKeys(l.ix, bs, |bs|)) {
      forall i, k | 0 <= i < k < |bs| && Apart(l.ix, bs, i, k) ensures Joined(l.ix, l.hks, bs, i, k) {
        RisingIsJoined(l.ix, l.hks, bs, i, k);
      }
    }
  }

  lemma NoneApart(ix: Index, bs: seq<nat>, i: nat, k: nat)
    requires OnPages(ix, bs) && i < k < |bs|
    requires forall k :: 0 < k < |bs| - 1 ==> ix[bs[k]].halfDead || HasReal(ix[bs[k]])
    ensures !Apart(ix, bs, i, k)
  {
    forall m | i < m < k ensures ix[bs[m]].halfDead || RealKeys(ix[bs[m]]) != [] {
      if !ix[bs[m]].halfDead { assert HasReal(ix[bs[m]]); }
    }
  }

  /** After a run without error the real items of every level rise if and only if
      they do so across empty pages; so always when there is no such page. */
  lemma EveryLevelRises(ix: Index, hks: bool, root: nat, top: nat, levels: seq<seq<nat>>, i: nat)
    requires Levels(ix, hks, root, top, levels) && i < |levels|
    ensures OnPages(ix, levels[i])
    ensures Rising(hks, LevelKeys(ix, levels[i], |levels[i]|)) <==> Bridged(ix, hks, levels[i])
    ensures (forall b :: b in ix ==> ix[b].halfDead || HasReal(ix[b])) ==> Rising(hks, LevelKeys(ix, levels[i], |levels[i]|))
  {
    assert Complete(LevelAt(ix, hks, root, top, levels, i), levels[i]);
    hide Levels, HasReal, Walked, Rising, Bridged, LevelKeys;
    LevelRisesIff(LevelAt(ix, hks, root, top, levels, i), levels[i]);
  }

  // ----- below an item ----------------------------------------------------------

  predicate LinksInto(p: Page, s: set<nat>) {
    forall k :: FirstData(p) <= k < |p.lines| ==> p.lines[k].down in s
  }

  predicate CheckedPage(ix: Index, hks: bool, p: Page, s: set<nat>) {
    Sane(p) && !p.deleted && (!p.leaf ==> ItemsOk(ix, hks, p, |p.lines|) && LinksInto(p, s))
  }

  /** A set of pages without error and their children. */
  ghost predicate Checked(ix: Index, hks: bool, s: set<nat>) {
    forall b :: b in s ==> b in ix && CheckedPage(ix, hks, ix[b], s)
  }

  /** The blocks on some level. */
  function Blocks(levels: seq<seq<nat>>): set<nat> {
    set i, k | 0 <= i < |levels| && 0 <= k < |levels[i]| :: levels[i][k]
  }

  /** Such are the pages of the levels walked, if they point to no others. */
  lemma LevelsChecked(ix: Index, hks: bool, root: nat, top: nat, levels: seq<seq<nat>>)
    requires Levels(ix, hks, root, top, levels)
    requires forall b :: b in Blocks(levels) && b in ix && !ix[b].leaf ==> LinksInto(ix[b], Blocks(levels))
    ensures Checked(ix, hks, Blocks(levels))
  {
    hide Complete, LevelAt, LinksInto, Sane, ItemsOk;
    forall b | b in Blocks(levels) ensures b in ix && CheckedPage(ix, hks, ix[b], Blocks(levels)) {
      var i, k :| 0 <= i < |levels| && 0 <= k < |levels[i]| && levels[i][k] == b;
      assert Complete(LevelAt(ix, hks, root, top, levels, i), levels[i]);
      WalkedPage(LevelAt(ix, hks, root, top, levels, i), levels[i], k);
      LevelOf(ix, hks, root, top, levels, i);
    }
  }

  lemma WalkedPage(l: Level, bs: seq<nat>, k: nat)
    requires Complete(l, bs) && k < |bs|
    ensures bs[k] in l.ix && Sane(l.ix[bs[k]]) && !l.ix[bs[k]].deleted
    ensures !l.ix[bs[k]].leaf ==> ItemsOk(l.ix, l.hks, l.ix[bs[k]], |l.ix[bs[k]].lines|)
  {
    PageOf(l, bs, k);
    hide Complete;
  }

  lemma LevelOf(ix: Index, hks: bool, root: nat, top: nat, levels: seq<seq<nat>>, i: nat)
    requires i <= |levels|
    ensures LevelAt(ix, hks, root, top, levels, i).ix == ix && LevelAt(ix, hks, root, top, levels, i).hks == hks
  {
  }

  /** All real items of the pages down to n levels below b are above the key. */
  predicate AllAbove(ix: Index, hks: bool, key: int, b: nat, n: nat)
    decreases n
  {
    && b in ix && Above(hks, key, ix[b])
    && (n > 0 && !ix[b].leaf ==> forall k :: FirstData(ix[b]) <= k < |ix[b].lines| ==> AllAbove(ix, hks, key, ix[b].lines[k].down, n - 1))
  }

  /** Those of the leftmost pages are. */
  predicate SpineAbove(ix: Index, hks: bool, key: int, b: nat, n: nat)
    decreases n
  {
    && b in ix && Above(hks, key, ix[b])
    && (n > 0 && !ix[b].leaf && FirstData(ix[b]) < |ix[b].lines| ==>
        SpineAbove(ix, hks, key, ix[b].lines[FirstData(ix[b])].down, n - 1))
  }

  /** Each item of the pages in s that points down has what is below it above it. */
  ghost predicate ItemsCover(ix: Index, hks: bool, s: set<nat>, n: nat)
    requires Checked(ix, hks, s)
  {
    forall b, j :: b in s && !ix[b].leaf && FirstReal(ix[b]) <= j < |ix[b].lines| ==>
      AllAbove(ix, hks, ix[b].lines[j].key, ix[b].lines[j].down, n)
  }

  ghost predicate SpinesCover(ix: Index, hks: bool, s: set<nat>, n: nat)
    requires Checked(ix, hks, s)
  {
    forall b, j :: b in s && !ix[b].leaf && FirstReal(ix[b]) <= j < |ix[b].lines| ==>
      SpineAbove(ix, hks, ix[b].lines[j].key, ix[b].lines[j].down, n)
  }

  lemma {:induction false} AllSpine(ix: Index, hks: bool, key: int, b: nat, n: nat)
    requires AllAbove(ix, hks, key, b, n)
    ensures SpineAbove(ix, hks, key, b, n)
    decreases n
  {
    if n > 0 && !ix[b].leaf && FirstData(ix[b]) < |ix[b].lines| {
      AllSpine(ix, hks, key, ix[b].lines[FirstData(ix[b])].down, n - 1);
    }
  }

  lemma {:induction false} LowerKey(ix: Index, hks: bool, low: int, key: int, b: nat, n: nat)
    requires AllAbove(ix, hks, key, b, n) && Below(hks, low, key)
    ensures AllAbove(ix, hks, low, b, n)
    decreases n
  {
    if n > 0 && !ix[b].leaf {
      forall k | FirstData(ix[b]) <= k < |ix[b].lines| ensures AllAbove(ix, hks, low, ix[b].lines[k].down, n - 1) {
        LowerKey(ix, hks, low, key, ix[b].lines[k].down, n - 1);
      }
    }
  }

  lemma {:induction false} SpinesShorter(ix: Index, hks: bool, key: int, b: nat, n: nat)
    requires SpineAbove(ix, hks, key, b, n) && n > 0
    ensures SpineAbove(ix, hks, key, b, n - 1)
    decreases n
  {
    if n > 1 && !ix[b].leaf && FirstData(ix[b]) < |ix[b].lines| {
      SpinesShorter(ix, hks, key, ix[b].lines[FirstData(ix[b])].down, n - 1);
    }
  }

  lemma {:induction false} SpineAll(ix: Index, hks: bool, s: set<nat>, key: int, b: nat, n: nat)
    requires Checked(ix, hks, s) && b in s && SpineAbove(ix, hks, key, b, n) && (n > 0 ==> SpinesCover(ix, hks, s, n - 1))
    ensures AllAbove(ix, hks, key, b, n)
    decreases n
  {
    hide Above, ItemsOk, Sane;
    if n > 0 && !ix[b].leaf {
      if n > 1 { CoverShorter(ix, hks, s, n - 1); }
      forall k | FirstData(ix[b]) <= k < |ix[b].lines| ensures AllAbove(ix, hks, key, ix[b].lines[k].down, n - 1) {
        var line := ix[b].lines[k];
        if k == FirstData(ix[b]) {
          SpineAll(ix, hks, s, key, line.down, n - 1);
        } else {
          SpineAll(ix, hks, s, line.key, line.down, n - 1);
          LowerItem(hks, key, ix[b], k);
          LowerKey(ix, hks, key, line.key, line.down, n - 1);
        }
      }
    }
  }

  lemma LowerItem(hks: bool, key: int, p: Page, k: nat)
    requires Above(hks, key, p) && FirstReal(p) <= k < |p.lines|
    ensures Below(hks, key, p.lines[k].key)
  {
  }

  lemma CoverShorter(ix: Index, hks: bool, s: set<nat>, n: nat)
    requires Checked(ix, hks, s) && SpinesCover(ix, hks, s, n) && n > 0
    ensures SpinesCover(ix, hks, s, n - 1)
  {
    hide SpineAbove, CheckedPage;
    forall b, j | b in s && !ix[b].leaf && FirstReal(ix[b]) <= j < |ix[b].lines|
      ensures SpineAbove(ix, hks, ix[b].lines[j].key, ix[b].lines[j].down, n - 1)
    {
      SpinesShorter(ix, hks, ix[b].lines[j].key, ix[b].lines[j].down, n);
    }
  }

  /** The check compares an item with its children only. So on pages without error
      everything below an item, at any depth, is above it if and only if the leftmost
      pages below it are. */
  lemma ItemsCoverIff(ix: Index, hks: bool, s: set<nat>, n: nat)
    requires Checked(ix, hks, s)
    ensures ItemsCover(ix, hks, s, n) <==> SpinesCover(ix, hks, s, n)
    ensures n == 0 ==> ItemsCover(ix, hks, s, n)
  {
    hide SpineAbove, AllAbove;
    if n > 0 && SpinesCover(ix, hks, s, n) { CoverShorter(ix, hks, s, n); }
    forall b, j | b in s && !ix[b].leaf && FirstReal(ix[b]) <= j < |ix[b].lines|
      ensures AllAbove(ix, hks, ix[b].lines[j].key, ix[b].lines[j].down, n) ==> SpineAbove(ix, hks, ix[b].lines[j].key, ix[b].lines[j].down, n)
      ensures SpinesCover(ix, hks, s, n) ==> AllAbove(ix, hks, ix[b].lines[j].key, ix[b].lines[j].down, n)
      ensures n == 0 ==> AllAbove(ix, hks, ix[b].lines[j].key, ix[b].lines[j].down, n)
    {
      var line := ix[b].lines[j];
      if AllAbove(ix, hks, line.key, line.down, n) { AllSpine(ix, hks, line.key, line.down, n); }
      if SpinesCover(ix, hks, s, n) { SpineAll(ix, hks, s, line.key, line.down, n); }
      ChildAbove(ix, hks, ix[b], j);
    }
  }

  /** Every real item of a child is above the item that points to it. */
  lemma ChildAbove(ix: Index, hks: bool, p: Page, j: nat)
    requires Sane(p) && !p.deleted && ItemsOk(ix, hks, p, |p.lines|) && !p.leaf && FirstReal(p) <= j < |p.lines|
    ensures p.lines[j].down in ix && Above(hks, p.lines[j].key, ix[p.lines[j].down])
    ensures AllAbove(ix, hks, p.lines[j].key, p.lines[j].down, 0)
  {
    assert DownOk(ix, hks, p, j);
  }
}
