/** The checks of one page of a possibly corrupt B-tree, on a locked index. Keys
    stand for whole tuples under the index's total order; any finite set of them
    is ordered like integers. */
module AmcheckPage {

  /** A line of a page: its key and, on internal pages, the child it points to. */
  datatype Line = Line(key: int, down: nat)

  /** Neighbours are block numbers, 0 for none. On a page that is not rightmost
      the first line is the high key; on an internal page the first line after
      that has no key of its own and counts as minus infinity. */
  datatype Page = Page(leaf: bool, root: bool, halfDead: bool, deleted: bool,
                       prev: nat, next: nat, level: nat, lines: seq<Line>)

  type Index = map<nat, Page>

  datatype Reading = Unreadable | Readable(page: Page)

  /** How a check of a page or an index goes: it may never come back. */
  datatype Verdict = Fails | Hangs | Passes

  function FirstData(p: Page): nat {
    if p.next == 0 then 0 else 1
  }

  function FirstReal(p: Page): nat {
    FirstData(p) + if p.leaf then 0 else 1
  }

  predicate Ignored(p: Page) {
    p.halfDead || p.deleted
  }

  /** What every page read is checked for. */
  predicate Sane(p: Page) {
    && (p.leaf && !p.deleted ==> p.level == 0 && (p.next != 0 ==> |p.lines| >= 1))
    && (!p.leaf && !p.deleted ==> p.level != 0 && FirstData(p) < |p.lines|)
    && (!p.leaf ==> !p.halfDead)
  }

  function ReadPage(ix: Index, b: nat): Reading {
    if b != 0 && b in ix && Sane(ix[b]) then Readable(ix[b]) else Unreadable
  }

  /** Strict in indexes whose keys include the heap address. */
  predicate Below(hks: bool, a: int, b: int) {
    if hks then a < b else a <= b
  }

  // ----- the page to the right -------------------------------------------------

  /** A page that the search for the right neighbour steps over. */
  predicate Skipped(ix: Index, b: nat) {
    var r := ReadPage(ix, b);
    r.Readable? && Ignored(r.page) && r.page.next != 0
  }

  /** The block n right links after b. */
  function RightAfter(ix: Index, b: nat, n: nat): nat {
    if n == 0 then b else var a := RightAfter(ix, b, n - 1); if a in ix then ix[a].next else 0
  }

  /** The search from b stops after n steps. */
  predicate StopsAfter(ix: Index, b: nat, n: nat) {
    !Skipped(ix, RightAfter(ix, b, n)) && forall i :: 0 <= i < n ==> Skipped(ix, RightAfter(ix, b, i))
  }

  ghost predicate NeverStops(ix: Index, b: nat) {
    forall n: nat :: Skipped(ix, RightAfter(ix, b, n))
  }

  /** From a block met again the search goes round. */
  lemma {:induction false} RoundAgain(ix: Index, b: nat, i: nat, j: nat, n: nat)
    requires i < j && RightAfter(ix, b, i) == RightAfter(ix, b, j) && n >= j
    ensures RightAfter(ix, b, n) == RightAfter(ix, b, n - (j - i))
  {
    if n > j { RoundAgain(ix, b, i, j, n - 1); }
  }

  lemma {:induction false} RoundForEver(ix: Index, b: nat, i: nat, j: nat, n: nat)
    requires i < j && RightAfter(ix, b, i) == RightAfter(ix, b, j)
    requires forall k :: 0 <= k < j ==> Skipped(ix, RightAfter(ix, b, k))
    ensures Skipped(ix, RightAfter(ix, b, n))
    decreases n
  {
    if n >= j {
      RoundAgain(ix, b, i, j, n);
      RoundForEver(ix, b, i, j, n - (j - i));
    }
  }

  /** The search from b has stepped over n pages, those seen among them. */
  ghost predicate Stepped(ix: Index, b: nat, n: nat, seen: set<nat>) {
    && (forall i :: 0 <= i < n ==> Skipped(ix, RightAfter(ix, b, i)))
    && seen <= ix.Keys && forall c :: c in seen ==> exists i :: 0 <= i < n && RightAfter(ix, b, i) == c
  }

  lemma StepOn(ix: Index, b: nat, n: nat, seen: set<nat>)
    requires Stepped(ix, b, n, seen) && Skipped(ix, RightAfter(ix, b, n))
    ensures var at := RightAfter(ix, b, n);
      at in ix && RightAfter(ix, b, n + 1) == ix[at].next && Stepped(ix, b, n + 1, seen + {at})
  {
    hide Skipped, RightAfter;
    var at := RightAfter(ix, b, n);
    NextRight(ix, b, n);
    forall c | c in seen + {at} ensures exists i :: 0 <= i < n + 1 && RightAfter(ix, b, i) == c {
      if c in seen { var i :| 0 <= i < n && RightAfter(ix, b, i) == c; assert i < n + 1; }
    }
  }

  lemma NextRight(ix: Index, b: nat, n: nat)
    requires Skipped(ix, RightAfter(ix, b, n))
    ensures RightAfter(ix, b, n) in ix && RightAfter(ix, b, n + 1) == ix[RightAfter(ix, b, n)].next
  {
  }

  lemma MetAgain(ix: Index, b: nat, n: nat, seen: set<nat>)
    requires Stepped(ix, b, n, seen) && RightAfter(ix, b, n) in seen
    ensures NeverStops(ix, b)
  {
    hide RightAfter, Skipped;
    var i :| 0 <= i < n && RightAfter(ix, b, i) == RightAfter(ix, b, n);
    forall m: nat ensures Skipped(ix, RightAfter(ix, b, m)) { RoundForEver(ix, b, i, n, m); }
  }

  /** The blocks not seen yet. */
  function Left(ix: Index, seen: set<nat>): set<nat> {
    ix.Keys - seen
  }

  lemma FewerLeft(ix: Index, seen: set<nat>, b: nat)
    requires b in ix && b !in seen
    ensures |Left(ix, seen + {b})| < |Left(ix, seen)|
  {
    assert Left(ix, seen + {b}) == Left(ix, seen) - {b};
  }

  /** Steps right over pages to ignore. The code has nothing against coming round
      again; where it would go on for ever this gives up instead. */
  method StepRight(ix: Index, b: nat) returns (stops: bool, at: nat, ghost n: nat)
    ensures stops <==> !NeverStops(ix, b)
    ensures stops ==> StopsAfter(ix, b, n) && at == RightAfter(ix, b, n)
  {
    at, n := b, 0;
    var seen: set<nat> := {};
    hide RightAfter, Skipped, Stepped, Left, NeverStops, StopsAfter;
    NoSteps(ix, b);
    while Skipped(ix, at)
      invariant at == RightAfter(ix, b, n) && Stepped(ix, b, n, seen)
      decreases |Left(ix, seen)|
    {
      if at in seen {
        MetAgain(ix, b, n, seen);
        return false, at, n;
      }
      StepOn(ix, b, n, seen);
      FewerLeft(ix, seen, at);
      seen, at, n := seen + {at}, ix[at].next, n + 1;
    }
    Stopped(ix, b, n, seen);
    stops := true;
  }

  lemma NoSteps(ix: Index, b: nat)
    ensures RightAfter(ix, b, 0) == b && Stepped(ix, b, 0, {})
  {
  }

  lemma Stopped(ix: Index, b: nat, n: nat, seen: set<nat>)
    requires Stepped(ix, b, n, seen) && !Skipped(ix, RightAfter(ix, b, n))
    ensures StopsAfter(ix, b, n) && !NeverStops(ix, b)
  {
    hide RightAfter, Skipped;
  }

  // ----- one page ----------------------------------------------------------

  predicate HasReal(p: Page) {
    FirstReal(p) < |p.lines|
  }

  /** The item at j respects the high key and the item after it. */
  predicate ItemOk(hks: bool, p: Page, j: nat)
    requires j < |p.lines| && (p.next != 0 ==> |p.lines| >= 1)
  {
    && (p.next != 0 ==> if p.leaf then p.lines[j].key <= p.lines[0].key else Below(hks, p.lines[j].key, p.lines[0].key))
    && (j + 1 < |p.lines| ==> Below(hks, p.lines[j].key, p.lines[j + 1].key))
  }

  /** Every real item of a page is above the key. */
  predicate Above(hks: bool, key: int, p: Page) {
    forall k :: FirstReal(p) <= k < |p.lines| ==> Below(hks, key, p.lines[k].key)
  }

  /** The child at b respects the key that points to it. */
  predicate ChildOk(ix: Index, hks: bool, key: int, b: nat) {
    var r := ReadPage(ix, b);
    r.Readable? && !r.page.deleted && Above(hks, key, r.page)
  }

  predicate DownOk(ix: Index, hks: bool, p: Page, j: nat)
    requires j < |p.lines|
  {
    !p.leaf ==> ChildOk(ix, hks, p.lines[j].key, p.lines[j].down)
  }

  /** The key comes before the first real item of the page at b. */
  predicate BeforePage(ix: Index, hks: bool, key: int, b: nat) {
    var r := ReadPage(ix, b);
    r.Readable? && (HasReal(r.page) ==> Below(hks, key, r.page.lines[FirstReal(r.page)].key))
  }

  /** The last item comes before the first real item of the right neighbour. */
  ghost predicate LastOk(ix: Index, hks: bool, p: Page)
    requires |p.lines| > 0
  {
    p.next != 0 ==>
      exists n :: StopsAfter(ix, p.next, n) && BeforePage(ix, hks, p.lines[|p.lines| - 1].key, RightAfter(ix, p.next, n))
  }

  predicate ItemsOk(ix: Index, hks: bool, p: Page, n: nat)
    requires Sane(p) && !p.deleted && n <= |p.lines|
  {
    forall j :: FirstReal(p) <= j < n ==> ItemOk(hks, p, j) && DownOk(ix, hks, p, j)
  }

  ghost predicate PageOk(ix: Index, hks: bool, p: Page)
    requires Sane(p) && !p.deleted
  {
    ItemsOk(ix, hks, p, |p.lines|) && (HasReal(p) ==> LastOk(ix, hks, p))
  }

  /** Nothing is wrong before the search for the right neighbour, which never ends. */
  ghost predicate PageHangs(ix: Index, hks: bool, p: Page)
    requires Sane(p) && !p.deleted
  {
    && HasReal(p) && p.next != 0 && NeverStops(ix, p.next)
    && ItemsOk(ix, hks, p, |p.lines| - 1) && ItemOk(hks, p, |p.lines| - 1)
  }

  lemma OneStop(ix: Index, b: nat, m: nat, n: nat)
    requires StopsAfter(ix, b, m) && StopsAfter(ix, b, n)
    ensures m == n
  {
  }

  /** Compares the last item with the page to the right. */
  method RightPageCheck(ix: Index, hks: bool, p: Page) returns (v: Verdict)
    requires |p.lines| > 0
    ensures v.Passes? <==> LastOk(ix, hks, p)
    ensures v.Hangs? <==> p.next != 0 && NeverStops(ix, p.next)
  {
    hide RightAfter, BeforePage, Skipped;
    if p.next == 0 {
      return Passes;
    }
    var stops, at, n := StepRight(ix, p.next);
    if !stops {
      return Hangs;
    }
    forall m | StopsAfter(ix, p.next, m) ensures m == n { OneStop(ix, p.next, m, n); }
    v := if BeforePage(ix, hks, p.lines[|p.lines| - 1].key, at) then Passes else Fails;
  }

  /** Compares the items of a child with the key that points to it. */
  method DownlinkCheck(ix: Index, hks: bool, key: int, b: nat) returns (ok: bool)
    ensures ok <==> ChildOk(ix, hks, key, b)
  {
    var r := ReadPage(ix, b);
    if r.Unreadable? || r.page.deleted {
      return false;
    }
    var child := r.page;
    var offset := FirstData(child);
    while offset < |child.lines|
      invariant FirstData(child) <= offset
      invariant forall k :: FirstReal(child) <= k < offset && k < |child.lines| ==> Below(hks, key, child.lines[k].key)
    {
      if !(!child.leaf && offset == FirstData(child)) && !Below(hks, key, child.lines[offset].key) {
        return false;
      }
      offset := offset + 1;
    }
    return true;
  }

  /** Checks one item, the search for the right neighbour included. */
  method ItemCheck(ix: Index, hks: bool, p: Page, offset: nat) returns (v: Verdict)
    requires Sane(p) && !p.deleted && FirstReal(p) <= offset < |p.lines|
    ensures v.Hangs? <==> ItemOk(hks, p, offset) && offset + 1 == |p.lines| && p.next != 0 && NeverStops(ix, p.next)
    ensures v.Passes? <==>
      ItemOk(hks, p, offset) && DownOk(ix, hks, p, offset) && (offset + 1 == |p.lines| ==> LastOk(ix, hks, p))
  {
    hide NeverStops, ChildOk, StopsAfter, BeforePage, Below;
    var key := p.lines[offset].key;
    if p.next != 0 && !(if p.leaf then key <= p.lines[0].key else Below(hks, key, p.lines[0].key)) {
      return Fails;
    }
    if offset + 1 < |p.lines| {
      if !Below(hks, key, p.lines[offset + 1].key) {
        return Fails;
      }
    } else {
      hide LastOk;
      v := RightPageCheck(ix, hks, p);
      if !v.Passes? {
        return;
      }
    }
    if !p.leaf {
      var ok := DownlinkCheck(ix, hks, key, p.lines[offset].down);
      return if ok then Passes else Fails;
    }
    return Passes;
  }

  lemma OkOrHangs(ix: Index, hks: bool, p: Page)
    requires |p.lines| > 0 && p.next != 0 && NeverStops(ix, p.next)
    ensures !LastOk(ix, hks, p)
  {
    forall n: nat ensures !StopsAfter(ix, p.next, n) { assert Skipped(ix, RightAfter(ix, p.next, n)); }
  }

  /** Checks the items of a page in turn. */
  method TargetPageCheck(ix: Index, hks: bool, p: Page) returns (v: Verdict)
    requires Sane(p) && !p.deleted
    ensures v.Passes? <==> PageOk(ix, hks, p)
    ensures v.Hangs? <==> PageHangs(ix, hks, p)
  {
    hide ItemOk, DownOk, LastOk, NeverStops, Sane;
    var offset := FirstData(p);
    while offset < |p.lines|
      invariant FirstData(p) <= offset && (offset > FirstData(p) ==> offset <= |p.lines|)
      invariant offset <= |p.lines| ==> ItemsOk(ix, hks, p, offset)
      invariant offset >= |p.lines| && HasReal(p) ==> LastOk(ix, hks, p)
    {
      if !(!p.leaf && offset == FirstData(p)) {
        v := ItemCheck(ix, hks, p, offset);
        if !v.Passes? {
          return;
        }
      }
      offset := offset + 1;
    }
    if HasReal(p) && p.next != 0 && NeverStops(ix, p.next) { OkOrHangs(ix, hks, p); }
    return Passes;
  }
}
