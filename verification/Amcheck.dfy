/** The walk that checks a possibly corrupt B-tree level by level. Half-dead pages
    are stepped over with few questions, so the walk may go round among them. */
module Amcheck {
  import opened AmcheckPage

  /** A level to walk: where it starts, its number, and whether it is the root's. */
  datatype Level = Level(ix: Index, hks: bool, start: nat, number: int, isRoot: bool)

  // ----- one block ----------------------------------------------------------

  /** The links and the level of a page that is alive are as they should be, coming
      from the block left; first means that no such page was met before. */
  predicate Placed(l: Level, left: nat, p: Page, first: bool) {
    (first ==> p.prev == 0 && (l.isRoot ==> p.root)) && p.prev == left && p.level == l.number
  }

  /** The walk goes past block b. */
  ghost predicate Fits(l: Level, left: nat, b: nat, first: bool) {
    && ReadPage(l.ix, b).Readable? && !l.ix[b].deleted && b != left && b != l.ix[b].prev
    && if l.ix[b].halfDead then l.ix[b].next != 0 else Placed(l, left, l.ix[b], first) && PageOk(l.ix, l.hks, l.ix[b])
  }

  /** The check of block b never comes back. */
  ghost predicate Sticks(l: Level, left: nat, b: nat, first: bool) {
    && ReadPage(l.ix, b).Readable? && !Ignored(l.ix[b])
    && Placed(l, left, l.ix[b], first) && PageHangs(l.ix, l.hks, l.ix[b])
  }

  lemma FitsOrSticks(l: Level, left: nat, b: nat, first: bool)
    ensures !(Fits(l, left, b, first) && Sticks(l, left, b, first))
  {
    if Sticks(l, left, b, first) {
      OkOrHangs(l.ix, l.hks, l.ix[b]);
    }
  }

  /** One round of the walk: reads a page, checks its links and level and then
      its items, and looks for the shortest circles. */
  method CheckBlock(l: Level, left: nat, b: nat, first: bool) returns (v: Verdict)
    ensures v.Passes? <==> Fits(l, left, b, first)
    ensures v.Hangs? <==> Sticks(l, left, b, first)
  {
    FitsOrSticks(l, left, b, first);
    hide PageOk, PageHangs, Sane;
    var reading := ReadPage(l.ix, b);
    if reading.Unreadable? {
      return Fails;
    }
    var page := reading.page;
    if Ignored(page) {
      if page.deleted || page.next == 0 {
        return Fails;
      }
    } else {
      if first && (page.prev != 0 || (l.isRoot && !page.root)) {
        return Fails;
      }
      if page.prev != left || page.level != l.number {
        return Fails;
      }
      v := TargetPageCheck(l.ix, l.hks, page);
      if !v.Passes? {
        return;
      }
    }
    v := if b == left || b == page.prev then Fails else Passes;
  }

  // ----- one level ---------------------------------------------------------

  function LeftOf(bs: seq<nat>, i: nat): nat
    requires i <= |bs|
  {
    if i == 0 then 0 else bs[i - 1]
  }

  /** The block the walk comes to after the first i. */
  function NextOf(l: Level, bs: seq<nat>, i: nat): nat
    requires i <= |bs|
  {
    if i == 0 then l.start else if bs[i - 1] in l.ix then l.ix[bs[i - 1]].next else 0
  }

  /** No page that is alive is among the first i: as none can follow a first page
      that is half-dead, that page tells. */
  predicate FirstAt(l: Level, bs: seq<nat>, i: nat)
    requires i <= |bs|
  {
    i == 0 || (bs[0] in l.ix && l.ix[bs[0]].halfDead)
  }

  ghost predicate StepOk(l: Level, bs: seq<nat>, i: nat)
    requires i < |bs|
  {
    bs[i] == NextOf(l, bs, i) && bs[i] in l.ix && Fits(l, LeftOf(bs, i), bs[i], FirstAt(l, bs, i))
  }

  /** The walk goes past the blocks bs, in this order. */
  ghost predicate Walked(l: Level, bs: seq<nat>) {
    forall i :: 0 <= i < |bs| ==> StepOk(l, bs, i)
  }

  /** bs is the whole level, and the walk has nothing to object to on it. */
  ghost predicate Complete(l: Level, bs: seq<nat>) {
    Walked(l, bs) && bs != [] && NextOf(l, bs, |bs|) == 0
  }

  ghost predicate InOrder(l: Level) {
    exists bs :: Complete(l, bs)
  }

  /** The walk gets past n blocks. */
  ghost predicate GoesOn(l: Level, n: nat) {
    exists bs :: |bs| == n && Walked(l, bs)
  }

  ghost predicate Endless(l: Level) {
    forall n: nat :: GoesOn(l, n)
  }

  /** The walk gets past bs, and the check of the next page never comes back. */
  ghost predicate StuckAfter(l: Level, bs: seq<nat>) {
    Walked(l, bs) && Sticks(l, LeftOf(bs, |bs|), NextOf(l, bs, |bs|), FirstAt(l, bs, |bs|))
  }

  ghost predicate HangsOn(l: Level) {
    Endless(l) || exists bs :: StuckAfter(l, bs)
  }

  lemma WalkedSnoc(l: Level, bs: seq<nat>, b: nat)
    requires Walked(l, bs) && b == NextOf(l, bs, |bs|) && Fits(l, LeftOf(bs, |bs|), b, FirstAt(l, bs, |bs|))
    ensures Walked(l, bs + [b])
  {
    hide Fits;
    assert b in l.ix by { InIndex(l, LeftOf(bs, |bs|), b, FirstAt(l, bs, |bs|)); }
    forall i | 0 <= i < |bs| + 1 ensures StepOk(l, bs + [b], i) {
      if i < |bs| { assert StepOk(l, bs, i); }
    }
  }

  lemma InIndex(l: Level, left: nat, b: nat, first: bool)
    requires Fits(l, left, b, first)
    ensures b != 0 && b in l.ix && Sane(l.ix[b]) && !l.ix[b].deleted && b != left
  {
  }

  lemma WalkedPrefix(l: Level, bs: seq<nat>, n: nat)
    requires Walked(l, bs) && n <= |bs|
    ensures Walked(l, bs[..n])
  {
    hide Fits;
    forall i | 0 <= i < n ensures StepOk(l, bs[..n], i) { assert StepOk(l, bs, i); }
  }

  /** Walks agree as far as they both go. */
  lemma {:induction false} SameWalk(l: Level, bs: seq<nat>, cs: seq<nat>, i: nat)
    requires Walked(l, bs) && Walked(l, cs) && i < |bs| && i < |cs|
    ensures bs[i] == cs[i]
  {
    hide Fits;
    assert StepOk(l, bs, i) && StepOk(l, cs, i);
    if i > 0 { SameWalk(l, bs, cs, i - 1); }
  }

  /** A walk that goes further gets past the next block. */
  lemma LongerWalk(l: Level, bs: seq<nat>, cs: seq<nat>)
    requires Walked(l, bs) && Walked(l, cs) && |bs| < |cs|
    ensures Fits(l, LeftOf(bs, |bs|), NextOf(l, bs, |bs|), FirstAt(l, bs, |bs|))
    ensures NextOf(l, bs, |bs|) != 0
  {
    hide Fits, Walked;
    if bs != [] {
      SameWalk(l, bs, cs, |bs| - 1);
      SameWalk(l, bs, cs, 0);
    }
    assert StepOk(l, cs, |bs|) by { StepOf(l, cs, |bs|); }
    InIndex(l, LeftOf(bs, |bs|), NextOf(l, bs, |bs|), FirstAt(l, bs, |bs|));
  }

  lemma StepOf(l: Level, bs: seq<nat>, i: nat)
    requires Walked(l, bs) && i < |bs|
    ensures StepOk(l, bs, i)
  {
  }

  lemma SameNext(l: Level, bs: seq<nat>, cs: seq<nat>)
    requires Walked(l, bs) && Walked(l, cs) && |bs| == |cs|
    ensures bs == cs
  {
    forall i | 0 <= i < |bs| ensures bs[i] == cs[i] { SameWalk(l, bs, cs, i); }
  }

  /** A block that cannot be passed ends every walk. */
  lemma EndsHere(l: Level, bs: seq<nat>)
    requires Walked(l, bs) && !Fits(l, LeftOf(bs, |bs|), NextOf(l, bs, |bs|), FirstAt(l, bs, |bs|))
    ensures !Endless(l)
    ensures forall cs :: Complete(l, cs) ==> cs == bs
    ensures forall cs :: StuckAfter(l, cs) ==> cs == bs
  {
    hide Fits, Walked, Sticks;
    forall cs | |cs| == |bs| + 1 ensures !Walked(l, cs) {
      if Walked(l, cs) { LongerWalk(l, bs, cs); }
    }
    assert !GoesOn(l, |bs| + 1);
    forall cs | Complete(l, cs) ensures cs == bs { OnlyEnd(l, bs, cs); }
    forall cs | StuckAfter(l, cs) ensures cs == bs { OnlyStuck(l, bs, cs); }
  }

  lemma OnlyEnd(l: Level, bs: seq<nat>, cs: seq<nat>)
    requires Walked(l, bs) && !Fits(l, LeftOf(bs, |bs|), NextOf(l, bs, |bs|), FirstAt(l, bs, |bs|)) && Complete(l, cs)
    ensures cs == bs
  {
    hide Fits, Walked;
    if |cs| > |bs| { LongerWalk(l, bs, cs); } else if |cs| < |bs| { LongerWalk(l, cs, bs); } else { SameNext(l, bs, cs); }
  }

  lemma OnlyStuck(l: Level, bs: seq<nat>, cs: seq<nat>)
    requires Walked(l, bs) && !Fits(l, LeftOf(bs, |bs|), NextOf(l, bs, |bs|), FirstAt(l, bs, |bs|)) && StuckAfter(l, cs)
    ensures cs == bs
  {
    hide Fits, Walked, Sticks;
    if |cs| > |bs| {
      LongerWalk(l, bs, cs);
    } else if |cs| < |bs| {
      LongerWalk(l, cs, bs);
      FitsOrSticks(l, LeftOf(cs, |cs|), NextOf(l, cs, |cs|), FirstAt(l, cs, |cs|));
    } else {
      SameNext(l, bs, cs);
    }
  }

  // ----- going round ----------------------------------------------------------

  /** The k-th block of a walk whose last block was met at i before. */
  function Circling(bs: seq<nat>, i: nat, k: nat): nat
    requires i + 1 < |bs|
  {
    if k < |bs| then bs[k] else Circling(bs, i, k - (|bs| - 1 - i))
  }

  /** The blocks k - 1 and k of a circling walk are neighbours of the walk itself. */
  lemma {:induction false} CircleStep(bs: seq<nat>, i: nat, k: nat) returns (m: nat)
    requires i + 1 < |bs| && bs[i] == bs[|bs| - 1] && k > 0
    ensures 0 < m < |bs| && Circling(bs, i, k - 1) == bs[m - 1] && Circling(bs, i, k) == bs[m]
    decreases k
  {
    if k < |bs| {
      m := k;
    } else {
      m := CircleStep(bs, i, k - (|bs| - 1 - i));
    }
  }

  /** A walk that meets a block again never ends. */
  lemma GoesRound(l: Level, bs: seq<nat>, i: nat)
    requires Walked(l, bs) && i + 1 < |bs| && bs[i] == bs[|bs| - 1]
    ensures Endless(l)
  {
    hide Circling, Walked;
    forall n: nat ensures GoesOn(l, n) {
      var cs := seq(n, k requires 0 <= k < n => Circling(bs, i, k));
      CirclingWalked(l, bs, i, n);
      assert |cs| == n && Walked(l, cs);
    }
  }

  lemma CirclingWalked(l: Level, bs: seq<nat>, i: nat, n: nat)
    requires Walked(l, bs) && i + 1 < |bs| && bs[i] == bs[|bs| - 1]
    ensures Walked(l, seq(n, k requires 0 <= k < n => Circling(bs, i, k)))
  {
    hide Fits;
    var cs := seq(n, k requires 0 <= k < n => Circling(bs, i, k));
    forall k | 0 <= k < n ensures StepOk(l, cs, k) {
      assert StepOk(l, bs, 0);
      if k > 0 {
        var m := CircleStep(bs, i, k);
        assert StepOk(l, bs, m);
      }
    }
  }

  /** The first block a walk meets again is half-dead. */
  lemma {:induction false} MetAgainIsHalfDead(l: Level, bs: seq<nat>, i: nat, j: nat)
    requires Walked(l, bs) && i < j < |bs| && bs[i] == bs[j]
    ensures exists k :: 0 < k <= j && bs[k] in l.ix && l.ix[bs[k]].halfDead && bs[k] in bs[..k]
  {
    hide PageOk, Sane;
    assert StepOk(l, bs, i) && StepOk(l, bs, j);
    if l.ix[bs[j]].halfDead {
      assert bs[..j][i] == bs[j];
    } else {
      assert i > 0 by { assert StepOk(l, bs, j - 1); }
      MetAgainIsHalfDead(l, bs, i - 1, j - 1);
    }
  }

  predicate Distinct(bs: seq<nat>) {
    forall i, j :: 0 <= i < j < |bs| ==> bs[i] != bs[j]
  }

  lemma {:induction false} DistinctCount(bs: seq<nat>, s: set<nat>)
    requires Distinct(bs) && forall i :: 0 <= i < |bs| ==> bs[i] in s
    ensures |bs| <= |s|
    decreases |bs|
  {
    if bs != [] {
      var last, rest := bs[|bs| - 1], bs[..|bs| - 1];
      forall i | 0 <= i < |rest| ensures rest[i] in s - {last} { assert rest[i] == bs[i]; }
      DistinctCount(rest, s - {last});
    }
  }

  /** A walk that comes back to a block. */
  ghost predicate Circle(l: Level, bs: seq<nat>, i: nat) {
    Walked(l, bs) && i + 1 < |bs| && bs[i] == bs[|bs| - 1]
  }

  lemma CircleFrom(l: Level, bs: seq<nat>)
    requires Walked(l, bs) && !Distinct(bs)
    ensures exists cs, i :: Circle(l, cs, i)
  {
    var i, j :| 0 <= i < j < |bs| && bs[i] == bs[j];
    WalkedPrefix(l, bs, j + 1);
    hide Walked;
    assert Circle(l, bs[..j + 1], i);
  }

  /** A walk never ends if and only if it comes back to a block; and the first block
      it comes back to is half-dead. */
  lemma EndlessIff(l: Level)
    ensures Endless(l) <==> exists bs, i :: Circle(l, bs, i)
    ensures Endless(l) ==> exists b :: b in l.ix && l.ix[b].halfDead
  {
    hide Walked, Distinct;
    if Endless(l) {
      assert GoesOn(l, |l.ix| + 1);
      var bs :| |bs| == |l.ix| + 1 && Walked(l, bs);
      if Distinct(bs) {
        forall i | 0 <= i < |bs| ensures bs[i] in l.ix { StepOf(l, bs, i); }
        DistinctCount(bs, l.ix.Keys);
      }
      CircleFrom(l, bs);
      var cs, i :| Circle(l, cs, i);
      MetAgainIsHalfDead(l, cs, i, |cs| - 1);
    }
    if bs, i :| Circle(l, bs, i) { GoesRound(l, bs, i); }
  }

  /** So a walk that comes to an end has met no block twice. */
  lemma CompleteIsDistinct(l: Level, bs: seq<nat>)
    requires Complete(l, bs)
    ensures Distinct(bs) && !HangsOn(l) && |bs| <= |l.ix|
  {
    hide Walked, Distinct, Endless, StuckAfter;
    EndOf(l, bs);
    EndsHere(l, bs);
    if bs2 :| StuckAfter(l, bs2) { NotStuck(l, bs); }
    if !Distinct(bs) {
      CircleFrom(l, bs);
      EndlessIff(l);
    }
    forall i | 0 <= i < |bs| ensures bs[i] in l.ix { StepOf(l, bs, i); }
    DistinctCount(bs, l.ix.Keys);
  }

  lemma EndOf(l: Level, bs: seq<nat>)
    requires Complete(l, bs)
    ensures !Fits(l, LeftOf(bs, |bs|), NextOf(l, bs, |bs|), FirstAt(l, bs, |bs|))
  {
  }

  lemma NotStuck(l: Level, bs: seq<nat>)
    requires Complete(l, bs)
    ensures !StuckAfter(l, bs)
  {
  }

  // ----- the walk --------------------------------------------------------------

  datatype Outcome = Corrupt | Unending | NextLevel(leftmost: nat, level: int)

  /** Where the level below starts, as the first page has it. */
  function Down(p: Page): Outcome
    requires Sane(p) && !p.deleted
  {
    if p.leaf then NextLevel(0, -1) else NextLevel(p.lines[FirstData(p)].down, p.level - 1)
  }

  /** What has been seen was walked. */
  predicate Seen(l: Level, bs: seq<nat>, seen: set<nat>) {
    seen <= l.ix.Keys && forall c :: c in seen ==> c in bs
  }

  /** The first page of the level is alive. */
  predicate Alive(l: Level) {
    l.start in l.ix && Sane(l.ix[l.start]) && !Ignored(l.ix[l.start]) && l.ix[l.start].level == l.number &&
    (l.isRoot ==> l.ix[l.start].root)
  }

  lemma FailsAfter(l: Level, bs: seq<nat>)
    requires Walked(l, bs) && NextOf(l, bs, |bs|) != 0
    requires !Fits(l, LeftOf(bs, |bs|), NextOf(l, bs, |bs|), FirstAt(l, bs, |bs|))
    requires !Sticks(l, LeftOf(bs, |bs|), NextOf(l, bs, |bs|), FirstAt(l, bs, |bs|))
    ensures !InOrder(l) && !HangsOn(l)
  {
    hide Fits, Sticks, Walked, Endless;
    EndsHere(l, bs);
  }

  lemma SticksAfter(l: Level, bs: seq<nat>)
    requires StuckAfter(l, bs) && NextOf(l, bs, |bs|) != 0
    ensures !InOrder(l) && HangsOn(l)
  {
    FitsOrSticks(l, LeftOf(bs, |bs|), NextOf(l, bs, |bs|), FirstAt(l, bs, |bs|));
    hide Fits, Sticks, Walked, Endless;
    EndsHere(l, bs);
  }

  lemma ComesBack(l: Level, bs: seq<nat>, b: nat)
    requires Walked(l, bs + [b]) && b in bs
    ensures !InOrder(l) && HangsOn(l)
  {
    hide Walked, Endless, StuckAfter;
    var i :| 0 <= i < |bs| && bs[i] == b;
    GoesRound(l, bs + [b], i);
    forall cs ensures !Complete(l, cs) { if Complete(l, cs) { CompleteIsDistinct(l, cs); } }
  }

  lemma WalkIsOver(l: Level, bs: seq<nat>)
    requires Complete(l, bs)
    ensures InOrder(l) && !HangsOn(l) && bs[0] == l.start && Alive(l) && !FirstAt(l, bs, |bs|)
  {
    CompleteIsDistinct(l, bs);
    assert StepOk(l, bs, 0) && StepOk(l, bs, |bs| - 1);
    if |bs| > 1 { assert StepOk(l, bs, |bs| - 2); }
    hide HangsOn, Walked, PageOk, Sane;
  }

  /** The first page, if alive, tells where the next level starts. */
  lemma FirstTells(l: Level, bs: seq<nat>, b: nat)
    requires Walked(l, bs + [b])
    ensures b in l.ix && Sane(l.ix[b]) && !l.ix[b].deleted && b != 0
    ensures !l.ix[b].halfDead && FirstAt(l, bs, |bs|) ==> b == l.start && Alive(l)
    ensures FirstAt(l, bs + [b], |bs| + 1) <==> FirstAt(l, bs, |bs|) && l.ix[b].halfDead
  {
    assert StepOk(l, bs + [b], |bs|);
    if bs != [] { assert StepOk(l, bs + [b], 0) && StepOk(l, bs + [b], |bs| - 1); }
    hide Walked, PageOk, Sane;
  }

  /** Walks a level from its leftmost page. Where the walk goes round for ever this
      gives up instead: the code sees circles of one or two blocks only. */
  method CheckLevel(l: Level) returns (r: Outcome, ghost bs: seq<nat>)
    requires l.start != 0
    ensures r.NextLevel? <==> InOrder(l)
    ensures r.Unending? <==> HangsOn(l)
    ensures r.NextLevel? ==> Complete(l, bs) && Alive(l) && r == Down(l.ix[l.start])
  {
    hide Fits, Sticks, Walked, InOrder, HangsOn, Left, Sane, FirstAt;
    bs := [];
    var left, current, down, seen: set<nat> := 0, l.start, Corrupt, {};
    StartOfWalk(l);
    while current != 0
      invariant Walked(l, bs) && Seen(l, bs, seen) && left == LeftOf(bs, |bs|) && current == NextOf(l, bs, |bs|)
      invariant (FirstAt(l, bs, |bs|) <==> down.Corrupt?) && (down.NextLevel? ==> Alive(l) && down == Down(l.ix[l.start]))
      invariant !down.Unending?
      decreases |Left(l.ix, seen)|
    {
      var v := CheckBlock(l, left, current, down.Corrupt?);
      if v.Hangs? {
        SticksAfter(l, bs);
        return Unending, bs;
      }
      if v.Fails? {
        FailsAfter(l, bs);
        return Corrupt, bs;
      }
      WalkedSnoc(l, bs, current);
      FirstTells(l, bs, current);
      if current in seen {
        ComesBack(l, bs, current);
        return Unending, bs;
      }
      if !l.ix[current].halfDead && down.Corrupt? {
        down := Down(l.ix[current]);
      }
      FewerLeft(l.ix, seen, current);
      seen, bs := seen + {current}, bs + [current];
      left, current := current, l.ix[current].next;
    }
    WalkIsOver(l, bs);
    return down, bs;
  }

  lemma StartOfWalk(l: Level)
    ensures Walked(l, []) && FirstAt(l, [], 0)
  {
  }

  // ----- the whole index -----------------------------------------------------

  /** Level i as the levels above it say. */
  function LevelAt(ix: Index, hks: bool, root: nat, top: nat, levels: seq<seq<nat>>, i: nat): Level
    requires i <= |levels|
  {
    Level(ix, hks, Start(ix, root, levels, i), top - i, i == 0)
  }

  /** The leftmost block of level i: the root, or where the level above points. */
  function Start(ix: Index, root: nat, levels: seq<seq<nat>>, i: nat): nat
    requires i <= |levels|
  {
    if i == 0 || levels[i - 1] == [] || levels[i - 1][0] !in ix || !Sane(ix[levels[i - 1][0]]) || ix[levels[i - 1][0]].deleted
    then root
    else Down(ix[levels[i - 1][0]]).leftmost
  }

  /** The levels that were walked, top down. */
  ghost predicate Levels(ix: Index, hks: bool, root: nat, top: nat, levels: seq<seq<nat>>) {
    forall i :: 0 <= i < |levels| ==> Complete(LevelAt(ix, hks, root, top, levels, i), levels[i])
  }

  lemma LevelsSnoc(ix: Index, hks: bool, root: nat, top: nat, levels: seq<seq<nat>>, bs: seq<nat>)
    requires Levels(ix, hks, root, top, levels) && Complete(LevelAt(ix, hks, root, top, levels, |levels|), bs)
    ensures Levels(ix, hks, root, top, levels + [bs])
  {
    hide Complete, Start;
    forall i | 0 <= i < |levels| + 1 ensures Complete(LevelAt(ix, hks, root, top, levels + [bs], i), (levels + [bs])[i]) {
      StartStays(ix, root, levels, bs, i);
    }
  }

  lemma StartStays(ix: Index, root: nat, levels: seq<seq<nat>>, bs: seq<nat>, i: nat)
    requires i <= |levels|
    ensures Start(ix, root, levels + [bs], i) == Start(ix, root, levels, i)
  {
  }

  /** A level walked in full points to the one below. */
  lemma NextDown(ix: Index, hks: bool, root: nat, top: nat, levels: seq<seq<nat>>, bs: seq<nat>)
    requires |levels| <= top && Complete(LevelAt(ix, hks, root, top, levels, |levels|), bs)
    ensures var start := Start(ix, root, levels, |levels|);
      && start in ix && Sane(ix[start]) && !ix[start].deleted && Down(ix[start]).NextLevel?
      && Start(ix, root, levels + [bs], |levels| + 1) == Down(ix[start]).leftmost
      && (|levels| == top ==> Down(ix[start]).leftmost == 0)
  {
    WalkIsOver(LevelAt(ix, hks, root, top, levels, |levels|), bs);
    assert (levels + [bs])[|levels|] == bs;
    hide Complete;
  }

  /** Runs that go down the same levels agree. */
  lemma {:induction false} SameLevels(ix: Index, hks: bool, root: nat, top: nat, xs: seq<seq<nat>>, ys: seq<seq<nat>>, i: nat)
    requires Levels(ix, hks, root, top, xs) && Levels(ix, hks, root, top, ys) && i <= |xs| && i <= |ys|
    ensures LevelAt(ix, hks, root, top, xs, i) == LevelAt(ix, hks, root, top, ys, i)
    ensures i < |xs| && i < |ys| ==> xs[i] == ys[i]
    decreases i
  {
    hide Complete, Sane, Down;
    if i > 0 { SameLevels(ix, hks, root, top, xs, ys, i - 1); }
    hide Start;
    if i < |xs| && i < |ys| {
      var l := LevelAt(ix, hks, root, top, xs, i);
      assert Complete(l, xs[i]) && Complete(l, ys[i]);
      OneWalk(l, xs[i], ys[i]);
    }
  }

  lemma OneWalk(l: Level, bs: seq<nat>, cs: seq<nat>)
    requires Complete(l, bs) && Complete(l, cs)
    ensures bs == cs
  {
    EndOf(l, bs);
    hide Fits, Walked;
    EndsHere(l, bs);
  }

  /** All levels are in order, down to a start of zero. */
  ghost predicate AllInOrder(ix: Index, hks: bool, root: nat, top: nat) {
    root == 0 || exists all :: Levels(ix, hks, root, top, all) && all != [] && Start(ix, root, all, |all|) == 0
  }

  lemma WasInOrder(ix: Index, hks: bool, root: nat, top: nat, levels: seq<seq<nat>>, i: nat)
    requires Levels(ix, hks, root, top, levels) && i < |levels|
    ensures InOrder(LevelAt(ix, hks, root, top, levels, i)) && Start(ix, root, levels, i) != 0
  {
    var l, bs := LevelAt(ix, hks, root, top, levels, i), levels[i];
    assert Complete(l, bs);
    hide Levels, Start, Fits;
    assert StepOk(l, bs, 0);
    InIndex(l, 0, bs[0], true);
  }

  /** A run that does not get further than some level is on no index in order. */
  lemma OneRun(ix: Index, hks: bool, root: nat, top: nat, all: seq<seq<nat>>, levels: seq<seq<nat>>)
    requires Levels(ix, hks, root, top, all) && Start(ix, root, all, |all|) == 0
    requires Levels(ix, hks, root, top, levels) && !InOrder(LevelAt(ix, hks, root, top, levels, |levels|))
    ensures Start(ix, root, levels, |levels|) == 0
  {
    hide Start, Complete, Levels, InOrder;
    if |levels| <= |all| {
      SameLevels(ix, hks, root, top, all, levels, |levels|);
      if |levels| < |all| { WasInOrder(ix, hks, root, top, all, |levels|); }
    } else {
      SameLevels(ix, hks, root, top, all, levels, |all|);
      WasInOrder(ix, hks, root, top, levels, |all|);
    }
  }

  /** Checks every level from the root down. Level numbers fall by one each time,
      so this ends too, at the leaves or at a child link of zero. */
  method CheckEveryLevel(ix: Index, hks: bool, root: nat, top: nat) returns (v: Verdict, ghost levels: seq<seq<nat>>)
    ensures Levels(ix, hks, root, top, levels) && |levels| <= top + 1
    ensures v.Passes? <==> Start(ix, root, levels, |levels|) == 0
    ensures v.Passes? <==> AllInOrder(ix, hks, root, top)
    ensures !v.Passes? ==> !InOrder(LevelAt(ix, hks, root, top, levels, |levels|))
    ensures v.Hangs? <==> !v.Passes? && HangsOn(LevelAt(ix, hks, root, top, levels, |levels|))
  {
    hide Complete, Sane, Down, InOrder, HangsOn;
    levels := [];
    var leftmost: nat, level: int, isTrueRoot := root, top, true;
    while leftmost != 0
      invariant Levels(ix, hks, root, top, levels) && leftmost == Start(ix, root, levels, |levels|)
      invariant level == top - |levels| && level >= -1 && (level < 0 ==> leftmost == 0)
      invariant (leftmost == 0 ==> root == 0 || levels != []) && (isTrueRoot <==> levels == [])
      decreases level + 1
    {
      var r, bs := CheckLevel(Level(ix, hks, leftmost, level, isTrueRoot));
      if !r.NextLevel? {
        forall all | Levels(ix, hks, root, top, all) ensures Start(ix, root, all, |all|) != 0 {
          if Start(ix, root, all, |all|) == 0 { OneRun(ix, hks, root, top, all, levels); }
        }
        return if r.Unending? then Hangs else Fails, levels;
      }
      NextDown(ix, hks, root, top, levels, bs);
      LevelsSnoc(ix, hks, root, top, levels, bs);
      leftmost, level, isTrueRoot := r.leftmost, level - 1, false;
      levels := levels + [bs];
    }
    return Passes, levels;
  }

  lemma StopsAtOnce(ix: Index, b: nat)
    requires forall c :: c in ix ==> !Ignored(ix[c])
    ensures !NeverStops(ix, b)
  {
    assert !Skipped(ix, RightAfter(ix, b, 0));
  }

  /** Without pages to ignore the whole check always comes back. */
  lemma NothingToGoRound(l: Level)
    requires forall b :: b in l.ix ==> !Ignored(l.ix[b])
    ensures !HangsOn(l)
  {
    EndlessIff(l);
    forall bs ensures !StuckAfter(l, bs) {
      if StuckAfter(l, bs) { StopsAtOnce(l.ix, l.ix[NextOf(l, bs, |bs|)].next); }
    }
  }

  lemma {:induction false} SameEnd(l: Level, m: Level, bs: seq<nat>, cs: seq<nat>, i: nat, j: nat)
    requires Complete(l, bs) && Complete(m, cs) && l.ix == m.ix && i < |bs| && j < |cs| && bs[i] == cs[j]
    ensures bs[|bs| - 1] == cs[|cs| - 1]
    decreases |bs| - i
  {
    hide Fits;
    if i + 1 < |bs| {
      assert StepOk(l, bs, i + 1);
      InIndex(l, LeftOf(bs, i + 1), bs[i + 1], FirstAt(l, bs, i + 1));
    }
    if j + 1 < |cs| {
      assert StepOk(m, cs, j + 1);
      InIndex(m, LeftOf(cs, j + 1), cs[j + 1], FirstAt(m, cs, j + 1));
    }
    if i + 1 < |bs| && j + 1 < |cs| { SameEnd(l, m, bs, cs, i + 1, j + 1); }
  }

  lemma LastIsAlive(l: Level, bs: seq<nat>)
    requires Complete(l, bs)
    ensures bs[|bs| - 1] in l.ix && !Ignored(l.ix[bs[|bs| - 1]]) && l.ix[bs[|bs| - 1]].level == l.number
  {
    assert StepOk(l, bs, |bs| - 1);
    hide Walked, PageOk, Sane;
  }

  /** No block, not even a half-dead one, is on two of the levels. */
  lemma LevelsApart(ix: Index, hks: bool, root: nat, top: nat, levels: seq<seq<nat>>, i: nat, j: nat, b: nat)
    requires Levels(ix, hks, root, top, levels) && i < |levels| && j < |levels| && b in levels[i] && b in levels[j]
    ensures i == j
  {
    hide Complete, Start;
    var l, k := LevelAt(ix, hks, root, top, levels, i), LevelAt(ix, hks, root, top, levels, j);
    var m :| 0 <= m < |levels[i]| && levels[i][m] == b;
    var n :| 0 <= n < |levels[j]| && levels[j][n] == b;
    assert Complete(l, levels[i]) && Complete(k, levels[j]);
    SameEnd(l, k, levels[i], levels[j], m, n);
    LastIsAlive(l, levels[i]);
    LastIsAlive(k, levels[j]);
  }

  /** After a run without error the last level walked is that of the leaves, unless
      its first page points to block zero for its first child. */
  lemma LeavesReached(ix: Index, hks: bool, root: nat, top: nat, levels: seq<seq<nat>>)
    requires Levels(ix, hks, root, top, levels) && levels != [] && Start(ix, root, levels, |levels|) == 0
    ensures var first := levels[|levels| - 1]; first != [] && first[0] in ix
    ensures var p := ix[levels[|levels| - 1][0]];
      && (p.leaf <==> |levels| == top + 1)
      && (p.leaf || (FirstData(p) < |p.lines| && p.lines[FirstData(p)].down == 0))
  {
    var i := |levels| - 1;
    assert Complete(LevelAt(ix, hks, root, top, levels, i), levels[i]);
    WalkIsOver(LevelAt(ix, hks, root, top, levels, i), levels[i]);
    hide Complete, Levels;
  }
}
