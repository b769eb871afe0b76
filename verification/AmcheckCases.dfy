/** Three small indexes: one that passes though its leaves are not in order, one
    that passes though an item is below the wrong key, and one whose check never
    ends. */
module AmcheckCases {
  import opened AmcheckPage
  import opened Amcheck
  import opened AmcheckOrder

  predicate AllAlive(ix: Index) {
    forall b :: b in ix ==> Sane(ix[b]) && !Ignored(ix[b])
  }

  /** Without pages to ignore the right neighbour is the next page. */
  lemma PlainPage(ix: Index, hks: bool, b: nat)
    requires AllAlive(ix) && b in ix && ItemsOk(ix, hks, ix[b], |ix[b].lines|)
    requires HasReal(ix[b]) && ix[b].next != 0 ==> BeforePage(ix, hks, ix[b].lines[|ix[b].lines| - 1].key, ix[b].next)
    ensures PageOk(ix, hks, ix[b])
  {
    if HasReal(ix[b]) && ix[b].next != 0 {
      assert RightAfter(ix, ix[b].next, 0) == ix[b].next;
      assert StopsAfter(ix, ix[b].next, 0);
    }
  }

  // ----- a page without items ------------------------------------------------------

  /** A root over three leaves: with the item 5, with none, and with the item 3. */
  function Falling(): Index {
    map[
      1 := Page(true, false, false, false, 0, 2, 0, [Line(9, 0), Line(5, 0)]),
      2 := Page(true, false, false, false, 1, 3, 0, [Line(9, 0)]),
      3 := Page(true, false, false, false, 2, 0, 0, [Line(3, 0)]),
      4 := Page(false, true, false, false, 0, 0, 1, [Line(0, 1), Line(1, 2), Line(2, 3)])]
  }

  lemma FallingKeys()
    ensures OnPages(Falling(), [1, 2, 3]) && LevelKeys(Falling(), [1, 2, 3], 3) == [5, 3]
  {
    var ix := Falling();
    var bs: seq<nat> := [1, 2, 3];
    assert RealKeys(ix[1]) == [5] && RealKeys(ix[2]) == [] && RealKeys(ix[3]) == [3];
    assert LevelKeys(ix, bs, 0) == [] && LevelKeys(ix, bs, 1) == [5] && LevelKeys(ix, bs, 2) == [5];
  }

  lemma FallingPages()
    ensures AllAlive(Falling()) && forall b :: 1 <= b <= 4 ==> b in Falling() && PageOk(Falling(), true, Falling()[b])
  {
    var ix := Falling();
    forall b | 1 <= b <= 4 ensures b in ix && PageOk(ix, true, ix[b]) { PlainPage(ix, true, b); }
  }

  lemma FallingLevels()
    ensures Complete(Level(Falling(), true, 4, 1, true), [4])
    ensures Complete(Level(Falling(), true, 1, 0, false), [1, 2, 3])
  {
    FallingPages();
    hide PageOk, Sane;
  }

  /** The whole check passes although the items of the leaves fall, on both sides of
      the page without items. */
  method EmptyPageHides() returns (v: Verdict)
    ensures v.Passes? && OnPages(Falling(), [1, 2, 3]) && !Rising(true, LevelKeys(Falling(), [1, 2, 3], 3))
  {
    hide LevelKeys, Complete, Levels, AllInOrder;
    FallingInOrder();
    FallingKeys();
    assert !Below(true, [5, 3][0], [5, 3][1]);
    ghost var levels;
    v, levels := CheckEveryLevel(Falling(), true, 4, 1);
  }

  lemma FallingInOrder()
    ensures AllInOrder(Falling(), true, 4, 1)
  {
    FallingLevels();
    hide Complete;
    assert Levels(Falling(), true, 4, 1, [[4], [1, 2, 3]]);
  }

  // ----- an item below the wrong key ---------------------------------------------------

  /** A root with the key 10 over two pages, the second with the key 20; before that
      key is a leaf with the item 5. */
  function Escaping(): Index {
    map[
      1 := Page(false, true, false, false, 0, 0, 2, [Line(0, 2), Line(10, 3)]),
      2 := Page(false, false, false, false, 0, 3, 1, [Line(10, 0), Line(0, 4)]),
      3 := Page(false, false, false, false, 2, 0, 1, [Line(0, 5), Line(20, 6)]),
      4 := Page(true, false, false, false, 0, 5, 0, [Line(3, 0), Line(1, 0)]),
      5 := Page(true, false, false, false, 4, 6, 0, [Line(20, 0), Line(5, 0)]),
      6 := Page(true, false, false, false, 5, 0, 0, [Line(25, 0)])]
  }

  lemma EscapingItems()
    ensures forall b :: 1 <= b <= 6 ==>
      b in Escaping() && Sane(Escaping()[b]) && !Escaping()[b].deleted && ItemsOk(Escaping(), true, Escaping()[b], |Escaping()[b].lines|)
  {
  }

  lemma EscapingPages()
    ensures AllAlive(Escaping()) && forall b :: 1 <= b <= 6 ==> b in Escaping() && PageOk(Escaping(), true, Escaping()[b])
  {
    var ix := Escaping();
    EscapingItems();
    hide ItemsOk, PageOk;
    forall b | 1 <= b <= 6 ensures b in ix && PageOk(ix, true, ix[b]) { PlainPage(ix, true, b); }
  }

  lemma EscapingLevels()
    ensures Complete(Level(Escaping(), true, 1, 2, true), [1])
    ensures Complete(Level(Escaping(), true, 2, 1, false), [2, 3])
    ensures Complete(Level(Escaping(), true, 4, 0, false), [4, 5, 6])
  {
    EscapingPages();
    hide PageOk, Sane;
  }

  lemma EscapingStarts()
    ensures var all: seq<seq<nat>> := [[1], [2, 3], [4, 5, 6]];
      && Start(Escaping(), 1, all, 0) == 1 && Start(Escaping(), 1, all, 1) == 2
      && Start(Escaping(), 1, all, 2) == 4 && Start(Escaping(), 1, all, 3) == 0
  {
  }

  lemma EscapingInOrder()
    ensures AllInOrder(Escaping(), true, 1, 2)
  {
    EscapingLevels();
    EscapingStarts();
    hide Complete, Start, Escaping;
    var all: seq<seq<nat>> := [[1], [2, 3], [4, 5, 6]];
    assert Levels(Escaping(), true, 1, 2, all);
  }

  /** The whole check passes although the item 5 is two levels below the key 10. */
  method ItemEscapes() returns (v: Verdict)
    ensures v.Passes? && AllAbove(Escaping(), true, 10, 3, 0) && !AllAbove(Escaping(), true, 10, 3, 1)
  {
    hide Complete, Levels, AllInOrder;
    EscapingInOrder();
    Escapes();
    ghost var levels;
    v, levels := CheckEveryLevel(Escaping(), true, 1, 2);
  }

  lemma Escapes()
    ensures AllAbove(Escaping(), true, 10, 3, 0) && !AllAbove(Escaping(), true, 10, 3, 1)
  {
    var p, c := Escaping()[3], Escaping()[5];
    assert !Below(true, 10, c.lines[1].key);
    assert !AllAbove(Escaping(), true, 10, p.lines[0].down, 0);
  }

  // ----- a circle of half-dead pages -----------------------------------------------------

  /** A leaf followed by two half-dead leaves, the second of which points back. */
  function Turning(): Index {
    map[
      1 := Page(true, true, false, false, 0, 2, 0, [Line(9, 0)]),
      2 := Page(true, false, true, false, 1, 3, 0, [Line(9, 0)]),
      3 := Page(true, false, true, false, 2, 2, 0, [Line(9, 0)])]
  }

  lemma TurningWalk()
    ensures Circle(Level(Turning(), true, 1, 0, true), [1, 2, 3, 2], 1)
  {
    var ix, l := Turning(), Level(Turning(), true, 1, 0, true);
    assert PageOk(ix, true, ix[1]);
    hide PageOk;
    var bs: seq<nat> := [1, 2, 3, 2];
    assert StepOk(l, bs, 0) && StepOk(l, bs, 1) && StepOk(l, bs, 2) && StepOk(l, bs, 3);
  }

  /** The check goes round for ever. */
  method HalfDeadCircle() returns (v: Verdict)
    ensures v.Hangs?
  {
    hide Circle, Levels, Endless;
    TurningWalk();
    EndlessIff(Level(Turning(), true, 1, 0, true));
    ghost var levels;
    v, levels := CheckEveryLevel(Turning(), true, 1, 0);
    TurningStays(levels);
  }

  lemma TurningStays(levels: seq<seq<nat>>)
    requires Levels(Turning(), true, 1, 0, levels) && Endless(Level(Turning(), true, 1, 0, true))
    ensures levels == []
  {
    if levels != [] {
      var l := LevelAt(Turning(), true, 1, 0, levels, 0);
      assert Complete(l, levels[0]);
      CompleteIsDistinct(l, levels[0]);
    }
  }
}
