/** The bloom index as a state machine. Each step is what one process does
    between taking and releasing buffer locks; locks kept from one step to the
    next are part of the process's state. */
module BloomIndex {
  import opened BloomSign
  import opened BloomPage

  /** Entries of the metapage's array of not-full pages. */
  const BLOCKN: nat := 2004

  datatype Meta = Meta(nStart: nat, nEnd: nat, notFull: seq<nat>)

  datatype Row = Row(tid: nat, sign: Words)

  /** A tuple that was written, and the block it was written to. */
  datatype Placed = Placed(tuple: Tuple, blk: nat)

  datatype Process =
    | Idle
      // insertion; from InsLoop to InsWrite the metapage is locked exclusively
    | InsFirst(row: Row)
    | InsTry(row: Row, blk: nat)
    | InsSecond(row: Row, tried: int)
    | InsLoop(row: Row, nStart: nat)
    | InsAlloc(row: Row)
    | InsCheck(row: Row, blk: nat)
    | InsWrite(row: Row, blk: nat)  // the page is locked exclusively too
      // bulk deletion; like a scan, it began when since tuples had ever been written
    | VacScan(dead: set<nat>, npages: nat, blk: nat, list: seq<nat>, since: nat)
    | VacMeta(dead: set<nat>, npages: nat, list: seq<nat>, since: nat)
      // clean-up
    | ClnScan(npages: nat, blk: nat)
      // scan
    | ScnScan(sign: Words, npages: nat, blk: nat, found: set<nat>, since: nat)
    | ScnDone(sign: Words, npages: nat, found: set<nat>, since: nat)

  /** The index, the processes at work on it, and two histories: every tuple
      ever written, by number, and the numbers of those vacuumed away. */
  datatype State = State(
    size: nat, pages: seq<Page>, meta: Meta, fsm: set<nat>, procs: seq<Process>,
    written: seq<Placed>, removed: set<nat>)

  datatype Action =
    | StartInsert(p: nat, row: Row)
    | StartVacuum(p: nat, dead: set<nat>)
    | StartCleanup(p: nat)
    | StartScan(p: nat, sign: Words)
      // block: what the free space map or an extension gives, and then again when
      // the conditional lock on it is had
    | Step(p: nat, block: nat)
    | Abort(p: nat)

  predicate LocksMeta(pc: Process) {
    pc.InsLoop? || pc.InsAlloc? || pc.InsCheck? || pc.InsWrite?
  }

  predicate LocksPage(pc: Process, b: nat) {
    pc.InsWrite? && pc.blk == b
  }

  /** No process but p keeps the metapage locked. */
  predicate MetaFree(s: State, p: nat) {
    forall q :: 0 <= q < |s.procs| && q != p ==> !LocksMeta(s.procs[q])
  }

  predicate PageFree(s: State, p: nat, b: nat) {
    forall q :: 0 <= q < |s.procs| && q != p ==> !LocksPage(s.procs[q], b)
  }

  predicate IsBlock(s: State, b: nat) {
    1 <= b < |s.pages|
  }

  /** The step of p can go ahead: the blocks exist and the locks are free. */
  predicate CanStep(s: State, p: nat, block: nat)
    requires p < |s.procs|
  {
    match s.procs[p]
    case Idle => false
    case InsFirst(_) => MetaFree(s, p)
    case InsTry(_, b) => IsBlock(s, b) && PageFree(s, p, b)
    case InsSecond(_, _) => MetaFree(s, p)
    case InsLoop(_, n) =>
      n >= s.meta.nEnd ||
      (n < |s.meta.notFull| && IsBlock(s, s.meta.notFull[n]) && PageFree(s, p, s.meta.notFull[n]))
    case InsAlloc(_) => block in s.fsm || block == |s.pages|
    case InsCheck(_, b) => IsBlock(s, b)
    case InsWrite(_, b) => IsBlock(s, b) && s.meta.notFull != []
    case VacScan(_, n, b, _, _) => b >= n || (IsBlock(s, b) && PageFree(s, p, b))
    case VacMeta(_, _, list, _) => MetaFree(s, p) && |list| <= |s.meta.notFull|
    case ClnScan(n, b) => b >= n || (IsBlock(s, b) && PageFree(s, p, b))
    case ScnScan(_, n, b, _, _) => b >= n || (IsBlock(s, b) && PageFree(s, p, b))
    case ScnDone(_, _, _, _) => false
  }

  predicate Can(s: State, a: Action) {
    a.p < |s.procs| &&
    match a
    case Step(p, block) => CanStep(s, p, block)
    case Abort(p) => true
    case _ => s.procs[a.p].Idle?
  }

  function Goto(s: State, p: nat, pc: Process): State
    requires p < |s.procs|
  {
    s.(procs := s.procs[p := pc])
  }

  function NewTuple(s: State, row: Row): Tuple {
    Tuple(|s.written|, row.tid, row.sign)
  }

  /** Puts the row on page b, which has room. */
  function Put(s: State, row: Row, b: nat): State
    requires b < |s.pages| && Initialised(s.pages[b]).DataPage?
  {
    var t := NewTuple(s, row);
    s.(pages := s.pages[b := Added(Initialised(s.pages[b]), t)], written := s.written + [Placed(t, b)])
  }

  predicate Room(s: State, b: nat)
    requires b < |s.pages|
  {
    var p := Initialised(s.pages[b]);
    p.DataPage? && Fits(s.size, |p.tuples|)
  }

  function ReadMeta(s: State, p: nat, row: Row): State
    requires p < |s.procs|
  {
    if s.meta.nEnd > s.meta.nStart && s.meta.nStart < |s.meta.notFull|
    then Goto(s, p, InsTry(row, s.meta.notFull[s.meta.nStart]))
    else Goto(s, p, InsSecond(row, -1))
  }

  function TryPage(s: State, p: nat, row: Row, b: nat): State
    requires p < |s.procs| && b < |s.pages|
  {
    if Room(s, b) then Goto(Put(s, row, b), p, Idle) else Goto(s, p, InsSecond(row, b))
  }

  function LockMeta(s: State, p: nat, row: Row, tried: int): State
    requires p < |s.procs|
  {
    var n := s.meta.nStart;
    if n < s.meta.nEnd && n < |s.meta.notFull| && tried == s.meta.notFull[n]
    then Goto(s, p, InsLoop(row, n + 1))
    else Goto(s, p, InsLoop(row, n))
  }

  function TryNext(s: State, p: nat, row: Row, n: nat): State
    requires p < |s.procs| && (n < s.meta.nEnd ==> n < |s.meta.notFull| && s.meta.notFull[n] < |s.pages|)
  {
    if n >= s.meta.nEnd then Goto(s, p, InsAlloc(row))
    else if Room(s, s.meta.notFull[n])
    then Goto(Put(s, row, s.meta.notFull[n]).(meta := s.meta.(nStart := n)), p, Idle)
    else Goto(s, p, InsLoop(row, n + 1))
  }

  function Allocate(s: State, p: nat, row: Row, block: nat): State
    requires p < |s.procs|
  {
    if block in s.fsm then Goto(s.(fsm := s.fsm - {block}), p, InsCheck(row, block))
    else Goto(s.(pages := s.pages + [NewPage]), p, InsWrite(row, |s.pages|))
  }

  /** Takes the block if its lock is had at once, and it is still of use. The lock may
      fail whoever else holds it, a scan or a bulk deletion in the middle of a step. */
  function CheckFree(s: State, p: nat, row: Row, b: nat, had: bool): State
    requires p < |s.procs| && b < |s.pages|
  {
    if had && PageFree(s, p, b) && Usable(s.pages[b]) then Goto(s, p, InsWrite(row, b))
    else Goto(s, p, InsAlloc(row))
  }

  /** Initialises the allocated page whatever it held and makes it the only
      not-full page. */
  function WriteNew(s: State, p: nat, row: Row, b: nat): State
    requires p < |s.procs| && b < |s.pages| && s.meta.notFull != []
  {
    var t := NewTuple(s, row);
    Goto(
      s.(pages := s.pages[b := DataPage(false, [t])], written := s.written + [Placed(t, b)],
         meta := Meta(0, 1, s.meta.notFull[0 := b])), p, Idle)
  }

  function DeadOn(p: Page, dead: set<nat>): set<nat> {
    if p.DataPage? && !p.deleted then set t | t in p.tuples && t.tid in dead :: t.id else {}
  }

  function VacPage(s: State, p: nat, dead: set<nat>, npages: nat, b: nat, list: seq<nat>, since: nat): State
    requires p < |s.procs| && (b < npages ==> b < |s.pages|)
  {
    if b >= npages then Goto(s, p, VacMeta(dead, npages, list, since))
    else
      var page := s.pages[b];
      var list' := if Listed(s.size, page, dead) && |list| < BLOCKN then list + [b] else list;
      Goto(
        s.(pages := s.pages[b := Vacuumed(page, dead)], removed := s.removed + DeadOn(page, dead)),
        p, VacScan(dead, npages, b + 1, list', since))
  }

  function VacWrite(s: State, p: nat, list: seq<nat>): State
    requires p < |s.procs| && |list| <= |s.meta.notFull|
  {
    Goto(s.(meta := Meta(0, |list|, list + s.meta.notFull[|list|..])), p, Idle)
  }

  function ClnPage(s: State, p: nat, npages: nat, b: nat): State
    requires p < |s.procs| && (b < npages ==> b < |s.pages|)
  {
    if b >= npages then Goto(s, p, Idle)
    else if Usable(s.pages[b]) then Goto(s.(fsm := s.fsm + {b}), p, ClnScan(npages, b + 1))
    else Goto(s, p, ClnScan(npages, b + 1))
  }

  function FoundOn(p: Page, sign: Words): set<nat> {
    set t | t in Scanned(p, sign) :: t.id
  }

  function ScnPage(s: State, p: nat, sign: Words, npages: nat, b: nat, found: set<nat>, since: nat): State
    requires p < |s.procs| && (b < npages ==> b < |s.pages|)
  {
    if b >= npages then Goto(s, p, ScnDone(sign, npages, found, since))
    else Goto(s, p, ScnScan(sign, npages, b + 1, found + FoundOn(s.pages[b], sign), since))
  }

  function DoStep(s: State, p: nat, block: nat): State
    requires p < |s.procs| && CanStep(s, p, block)
  {
    match s.procs[p]
    case InsFirst(row) => ReadMeta(s, p, row)
    case InsTry(row, b) => TryPage(s, p, row, b)
    case InsSecond(row, tried) => LockMeta(s, p, row, tried)
    case InsLoop(row, n) => TryNext(s, p, row, n)
    case InsAlloc(row) => Allocate(s, p, row, block)
    case InsCheck(row, b) => CheckFree(s, p, row, b, block == b)
    case InsWrite(row, b) => WriteNew(s, p, row, b)
    case VacScan(dead, n, b, list, since) => VacPage(s, p, dead, n, b, list, since)
    case VacMeta(_, _, list, _) => VacWrite(s, p, list)
    case ClnScan(n, b) => ClnPage(s, p, n, b)
    case ScnScan(sign, n, b, found, since) => ScnPage(s, p, sign, n, b, found, since)
  }

  function Do(s: State, a: Action): State
    requires Can(s, a)
  {
    match a
    case StartInsert(p, row) => Goto(s, p, InsFirst(row))
    case StartVacuum(p, dead) => Goto(s, p, VacScan(dead, |s.pages|, 1, [], |s.written|))
    case StartCleanup(p) => Goto(s, p, ClnScan(|s.pages|, 1))
    case StartScan(p, sign) => Goto(s, p, ScnScan(sign, |s.pages|, 1, {}, |s.written|))
    case Step(p, block) => DoStep(s, p, block)
    case Abort(p) => Goto(s, p, Idle)
  }

  // ----- what every step keeps ---------------------------------------------

  predicate PageOk(size: nat, b: nat, p: Page) {
    && (p.MetaPage? <==> b == 0)
    && (p.DataPage? ==> |p.tuples| * size <= SPACE && (p.deleted <==> p.tuples == []))
  }

  /** The metapage is block 0, tuples stay within the page, and a data page is
      marked deleted exactly when it holds nothing. */
  predicate PagesOk(s: State) {
    0 < s.size <= SPACE && |s.pages| > 0 &&
    forall b :: 0 <= b < |s.pages| ==> PageOk(s.size, b, s.pages[b])
  }

  /** The listed not-full pages are data blocks of the file. */
  predicate MetaOk(s: State) {
    |s.meta.notFull| == BLOCKN && s.meta.nEnd <= BLOCKN &&
    forall i :: 0 <= i < s.meta.nEnd ==> IsBlock(s, s.meta.notFull[i])
  }

  predicate FsmOk(s: State) {
    forall b :: b in s.fsm ==> IsBlock(s, b)
  }

  predicate TupleOk(s: State, b: nat, t: Tuple) {
    t.id < |s.written| && s.written[t.id] == Placed(t, b) && t.id !in s.removed
  }

  function TuplesOf(p: Page): seq<Tuple> {
    if p.DataPage? then p.tuples else []
  }

  predicate Rising(ts: seq<Tuple>) {
    forall i, j :: 0 <= i < j < |ts| ==> ts[i].id < ts[j].id
  }

  /** Each tuple on a page is one that was written to that page and not removed,
      and no page holds one twice. */
  predicate OnPages(s: State) {
    forall b :: 0 <= b < |s.pages| ==>
      Rising(TuplesOf(s.pages[b])) && forall t :: t in TuplesOf(s.pages[b]) ==> TupleOk(s, b, t)
  }

  predicate WrittenOk(s: State, id: nat)
    requires id < |s.written|
  {
    var w := s.written[id];
    w.tuple.id == id && IsBlock(s, w.blk) && (id !in s.removed ==> w.tuple in TuplesOf(s.pages[w.blk]))
  }

  /** Each tuple written and not removed is on the page it was written to. */
  predicate AllThere(s: State) {
    (forall id :: 0 <= id < |s.written| ==> WrittenOk(s, id)) &&
    forall id :: id in s.removed ==> id < |s.written|
  }

  /** A scan that has read the blocks below b has found just what it should. */
  predicate FoundOk(s: State, sign: Words, b: nat, found: set<nat>, since: nat) {
    && since <= |s.written|
    && (forall id :: id in found ==> id < |s.written| && Covers(s.written[id].tuple.sign, sign))
    && forall id :: 0 <= id < since && s.written[id].blk < b && Covers(s.written[id].tuple.sign, sign) ==>
         id in found || id in s.removed
  }

  /** A bulk deletion that has passed the blocks below b has left no dead row there. */
  predicate PurgedOk(s: State, dead: set<nat>, b: nat, since: nat) {
    since <= |s.written| &&
    forall id :: 0 <= id < since && s.written[id].blk < b && s.written[id].tuple.tid in dead ==> id in s.removed
  }

  predicate WrittenBelow(s: State, since: nat, n: nat) {
    since <= |s.written| && forall id :: 0 <= id < since ==> s.written[id].blk < n
  }

  predicate ListOk(s: State, list: seq<nat>) {
    |list| <= BLOCKN && forall i :: 0 <= i < |list| ==> IsBlock(s, list[i])
  }

  predicate ProcessOk(s: State, pc: Process) {
    match pc
    case InsTry(_, b) => IsBlock(s, b)
    case InsCheck(_, b) => IsBlock(s, b)
    case InsWrite(_, b) => IsBlock(s, b) && Usable(s.pages[b])
    case VacScan(dead, n, b, list, since) =>
      1 <= b && n <= |s.pages| && ListOk(s, list) && PurgedOk(s, dead, b, since) && WrittenBelow(s, since, n)
    case VacMeta(dead, n, list, since) =>
      ListOk(s, list) && PurgedOk(s, dead, n, since) && WrittenBelow(s, since, n)
    case ClnScan(n, b) => 1 <= b && n <= |s.pages|
    case ScnScan(sign, n, b, found, since) =>
      1 <= b && n <= |s.pages| && FoundOk(s, sign, b, found, since) && WrittenBelow(s, since, n)
    case ScnDone(sign, n, found, since) =>
      FoundOk(s, sign, n, found, since) && WrittenBelow(s, since, n)
    case _ => true
  }

  predicate ProcessesOk(s: State) {
    (forall q :: 0 <= q < |s.procs| ==> ProcessOk(s, s.procs[q])) &&
    forall q, r :: 0 <= q < r < |s.procs| ==> !(LocksMeta(s.procs[q]) && LocksMeta(s.procs[r]))
  }

  predicate Inv(s: State) {
    PagesOk(s) && MetaOk(s) && FsmOk(s) && OnPages(s) && AllThere(s) && ProcessesOk(s)
  }
}
