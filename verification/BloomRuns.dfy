/** What holds of a bloom index over every run of the state machine. */
module BloomRuns {
  import opened BloomSign
  import opened BloomPage
  import opened BloomIndex

  /** Blocks and histories only grow. */
  predicate Grows(s: State, t: State) {
    && t.size == s.size && |s.pages| <= |t.pages| && s.removed <= t.removed
    && |s.written| <= |t.written| && forall id :: 0 <= id < |s.written| ==> t.written[id] == s.written[id]
  }

  /** The part of the invariant about pages and histories. */
  predicate Sound(s: State) {
    PagesOk(s) && OnPages(s) && AllThere(s)
  }

  // ----- processes that do not move ----------------------------------------

  lemma FoundStays(s: State, t: State, sign: Words, b: nat, found: set<nat>, since: nat)
    requires Grows(s, t) && FoundOk(s, sign, b, found, since)
    ensures FoundOk(t, sign, b, found, since)
  {
    hide Covers;
  }

  lemma ProcessStays(s: State, t: State, pc: Process)
    requires Grows(s, t) && ProcessOk(s, pc)
    requires pc.InsWrite? ==> t.pages[pc.blk] == s.pages[pc.blk]
    ensures ProcessOk(t, pc)
  {
    hide FoundOk;
    if pc.ScnScan? {
      FoundStays(s, t, pc.sign, pc.blk, pc.found, pc.since);
    } else if pc.ScnDone? {
      FoundStays(s, t, pc.sign, pc.npages, pc.found, pc.since);
    }
  }

  /** Pages that other processes keep locked are the same in both states. */
  predicate SpareLocked(s: State, t: State, p: nat) {
    forall q :: 0 <= q < |s.procs| && q != p && s.procs[q].InsWrite? ==>
      var b := s.procs[q].blk;
      b < |s.pages| && b < |t.pages| && t.pages[b] == s.pages[b]
  }

  lemma OthersStay(s: State, t: State, p: nat, pc: Process)
    requires ProcessesOk(s) && Grows(s, t) && SpareLocked(s, t, p)
    requires p < |s.procs| && t.procs == s.procs[p := pc]
    requires ProcessOk(t, pc) && (LocksMeta(pc) ==> LocksMeta(s.procs[p]) || MetaFree(s, p))
    ensures ProcessesOk(t)
  {
    hide ProcessOk;
    forall q | 0 <= q < |t.procs| ensures ProcessOk(t, t.procs[q]) {
      if q != p { ProcessStays(s, t, s.procs[q]); }
    }
    forall q, r | 0 <= q < r < |t.procs| ensures !(LocksMeta(t.procs[q]) && LocksMeta(t.procs[r])) {
    }
  }

  // ----- changes of one page -----------------------------------------------

  lemma RoomFits(s: State, b: nat)
    requires PagesOk(s) && IsBlock(s, b) && Room(s, b)
    ensures (|Initialised(s.pages[b]).tuples| + 1) * s.size <= SPACE
  {
    OneMoreFits(s.size, |Initialised(s.pages[b]).tuples|);
  }

  /** A page to insert into holds what it held before it was initialised. */
  lemma InitKeeps(size: nat, b: nat, p: Page)
    requires PageOk(size, b, p) && b > 0
    ensures Initialised(p).DataPage? && !Initialised(p).deleted && Initialised(p).tuples == TuplesOf(p)
  {
  }

  lemma PutKeepsPages(s: State, row: Row, b: nat)
    requires Sound(s) && IsBlock(s, b) && Room(s, b)
    ensures Initialised(s.pages[b]).DataPage? && PagesOk(Put(s, row, b))
  {
    hide OnPages, AllThere, Room;
    InitKeeps(s.size, b, s.pages[b]);
    RoomFits(s, b);
    var t := Put(s, row, b);
    forall k | 0 <= k < |t.pages| ensures PageOk(t.size, k, t.pages[k]) {
      if k != b { assert t.pages[k] == s.pages[k]; }
    }
  }

  lemma PutTuples(s: State, row: Row, b: nat)
    requires PagesOk(s) && IsBlock(s, b)
    ensures Initialised(s.pages[b]).DataPage?
    ensures var t := Put(s, row, b);
      |t.pages| == |s.pages| && TuplesOf(t.pages[b]) == TuplesOf(s.pages[b]) + [NewTuple(s, row)] &&
      forall k :: 0 <= k < |s.pages| && k != b ==> t.pages[k] == s.pages[k]
  {
    InitKeeps(s.size, b, s.pages[b]);
  }

  lemma PutKeepsOnPages(s: State, row: Row, b: nat)
    requires Sound(s) && IsBlock(s, b) && Initialised(s.pages[b]).DataPage?
    ensures OnPages(Put(s, row, b))
  {
    PutTuples(s, row, b);
    hide PagesOk, TuplesOf, Added, Initialised, Rising, AllThere;
    var t := Put(s, row, b);
    forall k | 0 <= k < |t.pages|
      ensures Rising(TuplesOf(t.pages[k])) && forall u :: u in TuplesOf(t.pages[k]) ==> TupleOk(t, k, u)
    {
      assert forall u :: u in TuplesOf(s.pages[k]) ==> TupleOk(s, k, u);
      if k == b { RisingSnoc(TuplesOf(s.pages[k]), NewTuple(s, row)); }
    }
  }

  lemma RisingSnoc(ts: seq<Tuple>, t: Tuple)
    requires Rising(ts) && forall u :: u in ts ==> u.id < t.id
    ensures Rising(ts + [t])
  {
    forall i | 0 <= i < |ts| ensures ts[i].id < t.id {
      assert ts[i] in ts;
    }
  }

  lemma PutKeepsAllThere(s: State, row: Row, b: nat)
    requires Sound(s) && IsBlock(s, b) && Initialised(s.pages[b]).DataPage?
    ensures AllThere(Put(s, row, b))
  {
    PutTuples(s, row, b);
    hide PagesOk, TuplesOf, OnPages, Added, Initialised;
    var t := Put(s, row, b);
    forall id | 0 <= id < |t.written| ensures WrittenOk(t, id) {
      if id < |s.written| {
        assert WrittenOk(s, id);
      }
    }
  }

  lemma PutKeeps(s: State, row: Row, b: nat)
    requires Sound(s) && IsBlock(s, b) && Room(s, b)
    ensures Initialised(s.pages[b]).DataPage? && Sound(Put(s, row, b)) && Grows(s, Put(s, row, b))
  {
    hide PagesOk, OnPages, AllThere, Put, Room;
    PutKeepsPages(s, row, b);
    PutKeepsOnPages(s, row, b);
    PutKeepsAllThere(s, row, b);
    PutGrows(s, row, b);
  }

  lemma PutGrows(s: State, row: Row, b: nat)
    requires b < |s.pages| && Initialised(s.pages[b]).DataPage?
    ensures Grows(s, Put(s, row, b))
  {
  }

  function Purged(s: State, b: nat, dead: set<nat>): State
    requires b < |s.pages|
  {
    s.(pages := s.pages[b := Vacuumed(s.pages[b], dead)], removed := s.removed + DeadOn(s.pages[b], dead))
  }

  lemma KeptShort(ts: seq<Tuple>, dead: set<nat>, size: nat)
    requires |ts| * size <= SPACE
    ensures |Kept(ts, dead)| * size <= SPACE
  {
    FewerFit(size, |Kept(ts, dead)|, |ts|);
  }

  lemma {:induction false} KeptOfRising(ts: seq<Tuple>, n: nat, dead: set<nat>)
    requires n <= |ts| && Rising(ts)
    ensures Rising(KeptOf(ts, n, dead))
    ensures forall t :: t in KeptOf(ts, n, dead) ==> n > 0 && t.id <= ts[n - 1].id
  {
    if n > 0 {
      KeptOfRising(ts, n - 1, dead);
      if n > 1 { assert ts[n - 2].id < ts[n - 1].id; }
    }
  }

  /** Vacuuming a page leaves just its tuples that are not dead. */
  lemma VacuumedTuples(p: Page, dead: set<nat>)
    requires p.DataPage? && p.deleted ==> p.tuples == []
    ensures forall t :: t in TuplesOf(Vacuumed(p, dead)) <==> t in TuplesOf(p) && t.tid !in dead
    ensures forall id :: id in DeadOn(p, dead) <==> exists t :: t in TuplesOf(p) && t.tid in dead && t.id == id
    ensures Rising(TuplesOf(p)) ==> Rising(TuplesOf(Vacuumed(p, dead)))
  {
    if p.DataPage? {
      KeptMembers(p.tuples, dead);
      if Rising(p.tuples) { KeptOfRising(p.tuples, |p.tuples|, dead); }
    }
  }

  lemma PurgeKeepsPages(s: State, b: nat, dead: set<nat>)
    requires PagesOk(s) && IsBlock(s, b)
    ensures PagesOk(Purged(s, b, dead))
  {
    hide Kept, DeadOn;
    var t := Purged(s, b, dead);
    assert PageOk(s.size, b, s.pages[b]);
    if s.pages[b].DataPage? { KeptShort(s.pages[b].tuples, dead, s.size); }
    forall k | 0 <= k < |t.pages| ensures PageOk(t.size, k, t.pages[k]) {
      if k != b { assert t.pages[k] == s.pages[k]; }
    }
  }

  lemma PurgeKeepsOnPages(s: State, b: nat, dead: set<nat>)
    requires Sound(s) && IsBlock(s, b)
    ensures OnPages(Purged(s, b, dead))
  {
    assert PageOk(s.size, b, s.pages[b]);
    VacuumedTuples(s.pages[b], dead);
    hide Vacuumed, DeadOn, TuplesOf, PagesOk, PageOk, Rising;
    var t := Purged(s, b, dead);
    forall k, u | 0 <= k < |t.pages| && u in TuplesOf(t.pages[k]) ensures TupleOk(t, k, u) {
      assert u in TuplesOf(s.pages[k]);
      assert TupleOk(s, k, u);
      NotPurged(s, b, dead, k, u);
    }
  }

  /** A tuple that stays shares its number with no dead tuple of the page. */
  lemma NotPurged(s: State, b: nat, dead: set<nat>, k: nat, u: Tuple)
    requires Sound(s) && IsBlock(s, b) && k < |s.pages| && TupleOk(s, k, u)
    requires k == b ==> u.tid !in dead
    requires forall id :: id in DeadOn(s.pages[b], dead) <==>
      exists t :: t in TuplesOf(s.pages[b]) && t.tid in dead && t.id == id
    ensures u.id !in DeadOn(s.pages[b], dead)
  {
    hide DeadOn, TuplesOf, PagesOk, AllThere, Rising;
    forall t | t in TuplesOf(s.pages[b]) && t.tid in dead ensures t.id != u.id {
      assert TupleOk(s, b, t);
    }
  }

  lemma PurgeKeepsAllThere(s: State, b: nat, dead: set<nat>)
    requires Sound(s) && IsBlock(s, b)
    ensures AllThere(Purged(s, b, dead))
  {
    assert PageOk(s.size, b, s.pages[b]);
    VacuumedTuples(s.pages[b], dead);
    hide Vacuumed, DeadOn, TuplesOf, PagesOk, PageOk, Rising;
    var t := Purged(s, b, dead);
    forall id | 0 <= id < |t.written| ensures WrittenOk(t, id) {
      assert WrittenOk(s, id);
    }
    forall id | id in t.removed ensures id < |t.written| {
      if id !in s.removed {
        var u :| u in TuplesOf(s.pages[b]) && u.tid in dead && u.id == id;
        assert TupleOk(s, b, u);
      }
    }
  }

  lemma PurgeKeeps(s: State, b: nat, dead: set<nat>)
    requires Sound(s) && IsBlock(s, b)
    ensures Sound(Purged(s, b, dead)) && Grows(s, Purged(s, b, dead))
  {
    hide PagesOk, OnPages, AllThere, Purged;
    PurgeKeepsPages(s, b, dead);
    PurgeKeepsOnPages(s, b, dead);
    PurgeKeepsAllThere(s, b, dead);
    PurgeGrows(s, b, dead);
  }

  lemma PurgeGrows(s: State, b: nat, dead: set<nat>)
    requires b < |s.pages|
    ensures Grows(s, Purged(s, b, dead))
  {
    hide DeadOn, Vacuumed;
  }

  lemma ExtendKeeps(s: State)
    requires Sound(s)
    ensures Sound(s.(pages := s.pages + [NewPage])) && Grows(s, s.(pages := s.pages + [NewPage]))
  {
    var t := s.(pages := s.pages + [NewPage]);
    forall b | 0 <= b < |t.pages| ensures PageOk(t.size, b, t.pages[b]) {
      if b < |s.pages| { assert t.pages[b] == s.pages[b]; }
    }
    assert OnPages(t) by {
      hide PagesOk, AllThere;
      forall b | 0 <= b < |t.pages|
        ensures Rising(TuplesOf(t.pages[b])) && forall u :: u in TuplesOf(t.pages[b]) ==> TupleOk(t, b, u)
      {
        if b < |s.pages| { assert forall u :: u in TuplesOf(s.pages[b]) ==> TupleOk(s, b, u); }
      }
    }
    assert AllThere(t) by {
      hide PagesOk, OnPages, TuplesOf;
      forall id | 0 <= id < |t.written| ensures WrittenOk(t, id) {
        assert WrittenOk(s, id);
      }
    }
  }

  // ----- one step ----------------------------------------------------------

  /** What a state needs besides sound pages when only p has moved. */
  lemma Moved(s: State, t: State, p: nat, pc: Process)
    requires Inv(s) && Sound(t) && Grows(s, t) && MetaOk(t) && FsmOk(t) && SpareLocked(s, t, p)
    requires p < |s.procs| && t.procs == s.procs[p := pc] && ProcessOk(t, pc)
    requires LocksMeta(pc) ==> LocksMeta(s.procs[p]) || MetaFree(s, p)
    ensures Inv(t)
  {
    hide PagesOk, OnPages, AllThere, MetaOk, FsmOk, ProcessesOk;
    OthersStay(s, t, p, pc);
  }

  lemma LockedExist(s: State, p: nat)
    requires ProcessesOk(s)
    ensures SpareLocked(s, s, p)
  {
    forall q | 0 <= q < |s.procs| && s.procs[q].InsWrite? ensures s.procs[q].blk < |s.pages| {
      assert ProcessOk(s, s.procs[q]);
    }
  }

  /** Changing a page no other process has locked. */
  lemma ChangeSpares(s: State, t: State, p: nat, b: nat)
    requires ProcessesOk(s) && PageFree(s, p, b) && |t.pages| >= |s.pages|
    requires forall k :: 0 <= k < |s.pages| && k != b ==> t.pages[k] == s.pages[k]
    ensures SpareLocked(s, t, p)
  {
    LockedExist(s, p);
    hide ProcessesOk;
    forall q | 0 <= q < |s.procs| && q != p && s.procs[q].InsWrite?
      ensures s.procs[q].blk < |s.pages| && t.pages[s.procs[q].blk] == s.pages[s.procs[q].blk]
    {
      assert !LocksPage(s.procs[q], b);
    }
  }

  /** A step that changes only the process. */
  lemma GotoKeeps(s: State, p: nat, pc: Process)
    requires Inv(s) && p < |s.procs| && ProcessOk(s, pc)
    requires LocksMeta(pc) ==> LocksMeta(s.procs[p]) || MetaFree(s, p)
    ensures Inv(Goto(s, p, pc)) && Grows(s, Goto(s, p, pc))
  {
    var t := Goto(s, p, pc);
    SameButProcs(s, t);
    ProcessStays(s, t, pc);
    LockedExist(s, p);
    hide PagesOk, OnPages, AllThere, MetaOk, FsmOk, ProcessesOk, ProcessOk;
    ChangeSparesNone(s, t, p);
    Moved(s, t, p, pc);
  }

  lemma ChangeSparesNone(s: State, t: State, p: nat)
    requires SpareLocked(s, s, p) && t.pages == s.pages
    ensures SpareLocked(s, t, p)
  {
  }

  lemma SameButProcs(s: State, t: State)
    requires t == s.(procs := t.procs)
    ensures Grows(s, t)
    ensures Sound(s) ==> Sound(t)
    ensures MetaOk(s) ==> MetaOk(t)
    ensures FsmOk(s) ==> FsmOk(t)
  {
    SoundSame(s, t);
  }

  /** Soundness looks only at the pages and the histories. */
  lemma SoundSame(s: State, t: State)
    requires t.size == s.size && t.pages == s.pages && t.written == s.written && t.removed == s.removed
    ensures Sound(s) ==> Sound(t)
  {
    if Sound(s) {
      forall b, u | 0 <= b < |s.pages| && u in TuplesOf(s.pages[b]) ensures TupleOk(t, b, u) {
        assert TupleOk(s, b, u);
      }
      forall id | 0 <= id < |s.written| ensures WrittenOk(t, id) {
        assert WrittenOk(s, id);
      }
    }
  }

  lemma MetaFsmGrow(s: State, t: State)
    requires |s.pages| <= |t.pages|
    ensures MetaOk(s) && t.meta == s.meta ==> MetaOk(t)
    ensures FsmOk(s) && t.fsm <= s.fsm ==> FsmOk(t)
  {
    if MetaOk(s) && t.meta == s.meta {
      forall i | 0 <= i < t.meta.nEnd ensures IsBlock(t, t.meta.notFull[i]) {
        assert IsBlock(s, s.meta.notFull[i]);
      }
    }
    if FsmOk(s) && t.fsm <= s.fsm {
      forall b | b in t.fsm ensures IsBlock(t, b) {
        assert IsBlock(s, b);
      }
    }
  }

  lemma ReadMetaKeeps(s: State, p: nat, row: Row)
    requires Inv(s) && p < |s.procs|
    ensures Inv(ReadMeta(s, p, row)) && Grows(s, ReadMeta(s, p, row))
  {
    hide PagesOk, OnPages, AllThere, FsmOk, ProcessesOk;
    if s.meta.nEnd > s.meta.nStart {
      assert IsBlock(s, s.meta.notFull[s.meta.nStart]);
      GotoKeeps(s, p, InsTry(row, s.meta.notFull[s.meta.nStart]));
    } else {
      GotoKeeps(s, p, InsSecond(row, -1));
    }
  }

  /** An insertion that finds room, with what it leaves of the metapage. */
  lemma PutAndFinish(s: State, p: nat, row: Row, b: nat, meta: Meta)
    requires Inv(s) && p < |s.procs| && IsBlock(s, b) && Room(s, b) && PageFree(s, p, b)
    requires MetaOk(s.(meta := meta))
    ensures Initialised(s.pages[b]).DataPage?
    ensures var t := Goto(Put(s, row, b).(meta := meta), p, Idle); Inv(t) && Grows(s, t)
  {
    PutKeeps(s, row, b);
    var u := Put(s, row, b);
    var t := Goto(u.(meta := meta), p, Idle);
    assert |u.pages| == |s.pages|;
    SoundSame(u, t);
    MetaFsmGrow(s.(meta := meta), t);
    assert Inv(s) && FsmOk(t) by { MetaFsmGrow(s, t); }
    hide PagesOk, OnPages, AllThere, MetaOk, FsmOk, ProcessesOk, Room;
    ChangeSpares(s, t, p, b);
    Moved(s, t, p, Idle);
  }

  lemma TryPageKeeps(s: State, p: nat, row: Row, b: nat)
    requires Inv(s) && p < |s.procs| && IsBlock(s, b) && PageFree(s, p, b)
    ensures Inv(TryPage(s, p, row, b)) && Grows(s, TryPage(s, p, row, b))
  {
    hide PagesOk, OnPages, AllThere, MetaOk, FsmOk, ProcessesOk, Put, Initialised;
    if Room(s, b) {
      assert s.(meta := s.meta) == s;
      PutAndFinish(s, p, row, b, s.meta);
      assert Put(s, row, b).(meta := s.meta) == Put(s, row, b) by { PutMeta(s, row, b); }
    } else {
      GotoKeeps(s, p, InsSecond(row, b));
    }
  }

  lemma PutMeta(s: State, row: Row, b: nat)
    requires b < |s.pages| && Initialised(s.pages[b]).DataPage?
    ensures Put(s, row, b).meta == s.meta
  {
  }

  lemma TryNextKeeps(s: State, p: nat, row: Row, n: nat)
    requires Inv(s) && p < |s.procs| && LocksMeta(s.procs[p])
    requires n < s.meta.nEnd ==> n < |s.meta.notFull| && IsBlock(s, s.meta.notFull[n]) && PageFree(s, p, s.meta.notFull[n])
    ensures Inv(TryNext(s, p, row, n)) && Grows(s, TryNext(s, p, row, n))
  {
    hide PagesOk, OnPages, AllThere, FsmOk, ProcessesOk, Put, Initialised, PageFree;
    if n >= s.meta.nEnd {
      GotoKeeps(s, p, InsAlloc(row));
    } else if Room(s, s.meta.notFull[n]) {
      assert MetaOk(s.(meta := s.meta.(nStart := n))) by { NewStart(s, n); }
      PutAndFinish(s, p, row, s.meta.notFull[n], s.meta.(nStart := n));
    } else {
      GotoKeeps(s, p, InsLoop(row, n + 1));
    }
  }

  lemma NewStart(s: State, n: nat)
    requires MetaOk(s)
    ensures MetaOk(s.(meta := s.meta.(nStart := n)))
  {
    var t := s.(meta := s.meta.(nStart := n));
    forall i | 0 <= i < t.meta.nEnd ensures IsBlock(t, t.meta.notFull[i]) {
      assert IsBlock(s, s.meta.notFull[i]);
    }
  }

  lemma AllocateKeeps(s: State, p: nat, row: Row, block: nat)
    requires Inv(s) && p < |s.procs| && LocksMeta(s.procs[p])
    ensures Inv(Allocate(s, p, row, block)) && Grows(s, Allocate(s, p, row, block))
  {
    var t := Allocate(s, p, row, block);
    if block in s.fsm {
      assert IsBlock(s, block);
      SoundSame(s, t);
    } else {
      ExtendKeeps(s);
      SoundSame(s.(pages := s.pages + [NewPage]), t);
    }
    MetaFsmGrow(s, t);
    hide PagesOk, OnPages, AllThere, MetaOk, FsmOk, ProcessesOk;
    LockedExist(s, p);
    assert SpareLocked(s, t, p);
    Moved(s, t, p, t.procs[p]);
  }

  lemma CheckFreeKeeps(s: State, p: nat, row: Row, b: nat, had: bool)
    requires Inv(s) && p < |s.procs| && LocksMeta(s.procs[p]) && IsBlock(s, b)
    ensures Inv(CheckFree(s, p, row, b, had)) && Grows(s, CheckFree(s, p, row, b, had))
  {
    hide PagesOk, OnPages, AllThere, MetaOk, FsmOk, ProcessesOk, PageFree;
    if had && PageFree(s, p, b) && Usable(s.pages[b]) {
      GotoKeeps(s, p, InsWrite(row, b));
    } else {
      GotoKeeps(s, p, InsAlloc(row));
    }
  }

  lemma OnlyHolder(s: State, p: nat, b: nat)
    requires ProcessesOk(s) && p < |s.procs| && LocksMeta(s.procs[p])
    ensures MetaFree(s, p) && PageFree(s, p, b)
  {
    hide ProcessOk;
    forall q | 0 <= q < |s.procs| && q != p ensures !LocksMeta(s.procs[q]) {
    }
  }

  lemma WriteNewKeeps(s: State, p: nat, row: Row, b: nat)
    requires Inv(s) && p < |s.procs| && s.procs[p] == InsWrite(row, b) && IsBlock(s, b)
    ensures s.meta.notFull != [] && Inv(WriteNew(s, p, row, b)) && Grows(s, WriteNew(s, p, row, b))
  {
    OnlyHolder(s, p, b);
    assert ProcessOk(s, s.procs[p]);
    var meta := Meta(0, 1, s.meta.notFull[0 := b]);
    assert MetaOk(s.(meta := meta));
    hide PagesOk, OnPages, AllThere, MetaOk, FsmOk, ProcessesOk, PageFree;
    assert Room(s, b) by { RoomWhenUsable(s, b); }
    PutAndFinish(s, p, row, b, meta);
    assert [] + [NewTuple(s, row)] == [NewTuple(s, row)];
    assert WriteNew(s, p, row, b) == Goto(Put(s, row, b).(meta := meta), p, Idle);
  }

  lemma RoomWhenUsable(s: State, b: nat)
    requires PagesOk(s) && IsBlock(s, b) && Usable(s.pages[b])
    ensures Room(s, b)
  {
  }

  lemma LockMetaKeeps(s: State, p: nat, row: Row, tried: int)
    requires Inv(s) && p < |s.procs| && MetaFree(s, p)
    ensures Inv(LockMeta(s, p, row, tried)) && Grows(s, LockMeta(s, p, row, tried))
  {
    hide PagesOk, OnPages, AllThere, MetaOk, FsmOk, ProcessesOk, MetaFree;
    GotoKeeps(s, p, LockMeta(s, p, row, tried).procs[p]);
  }

  lemma PurgedMore(s: State, t: State, dead: set<nat>, b: nat, since: nat)
    requires Sound(s) && b < |s.pages| && PurgedOk(s, dead, b, since)
    requires t.written == s.written && t.removed == s.removed + DeadOn(s.pages[b], dead)
    ensures PurgedOk(t, dead, b + 1, since)
  {
    forall id | 0 <= id < since && s.written[id].blk == b && s.written[id].tuple.tid in dead
      ensures id in t.removed
    {
      assert WrittenOk(s, id);
      assert PageOk(s.size, b, s.pages[b]);
    }
  }

  lemma VacPageKeeps(s: State, p: nat, dead: set<nat>, n: nat, b: nat, list: seq<nat>, since: nat)
    requires Inv(s) && p < |s.procs| && s.procs[p] == VacScan(dead, n, b, list, since)
    requires b < n ==> IsBlock(s, b) && PageFree(s, p, b)
    ensures Inv(VacPage(s, p, dead, n, b, list, since)) && Grows(s, VacPage(s, p, dead, n, b, list, since))
  {
    assert ProcessOk(s, s.procs[p]);
    if b >= n {
      assert PurgedOk(s, dead, n, since);
      hide Inv;
      GotoKeeps(s, p, VacMeta(dead, n, list, since));
    } else {
      VacOneKeeps(s, p, dead, n, b, list, since);
    }
  }

  lemma VacOneKeeps(s: State, p: nat, dead: set<nat>, n: nat, b: nat, list: seq<nat>, since: nat)
    requires Inv(s) && p < |s.procs| && b < n && IsBlock(s, b) && PageFree(s, p, b)
    requires ProcessOk(s, VacScan(dead, n, b, list, since))
    ensures Inv(VacPage(s, p, dead, n, b, list, since)) && Grows(s, VacPage(s, p, dead, n, b, list, since))
  {
    hide Vacuumed, DeadOn, Listed, PurgedOk, WrittenBelow;
    PurgeKeeps(s, b, dead);
    var u, t := Purged(s, b, dead), VacPage(s, p, dead, n, b, list, since);
    assert |u.pages| == |s.pages|;
    SoundSame(u, t);
    MetaFsmGrow(s, t);
    hide PagesOk, OnPages, AllThere, MetaOk, FsmOk, ProcessesOk;
    PurgedMore(s, t, dead, b, since);
    ListGrows(s, t, list, b);
    assert WrittenBelow(t, since, n) by { BelowSame(s, t, since, n); }
    ChangeSpares(s, t, p, b);
    Moved(s, t, p, t.procs[p]);
  }

  lemma BelowSame(s: State, t: State, since: nat, n: nat)
    requires t.written == s.written && WrittenBelow(s, since, n)
    ensures WrittenBelow(t, since, n)
  {
  }

  lemma ListGrows(s: State, t: State, list: seq<nat>, b: nat)
    requires ListOk(s, list) && IsBlock(s, b) && |s.pages| <= |t.pages|
    ensures ListOk(t, list) && (|list| < BLOCKN ==> ListOk(t, list + [b]))
  {
    forall i | 0 <= i < |list| ensures IsBlock(t, list[i]) {
      assert IsBlock(s, list[i]);
    }
  }

  lemma VacWriteKeeps(s: State, p: nat, list: seq<nat>)
    requires Inv(s) && p < |s.procs| && ListOk(s, list)
    ensures |list| <= |s.meta.notFull| && Inv(VacWrite(s, p, list)) && Grows(s, VacWrite(s, p, list))
  {
    var t := VacWrite(s, p, list);
    SoundSame(s, t);
    MetaFsmGrow(s, t);
    assert MetaOk(t) by {
      forall i | 0 <= i < |list| ensures IsBlock(t, t.meta.notFull[i]) {
        assert IsBlock(s, list[i]);
      }
    }
    hide PagesOk, OnPages, AllThere, MetaOk, FsmOk, ProcessesOk;
    LockedExist(s, p);
    ChangeSparesNone(s, t, p);
    Moved(s, t, p, Idle);
  }

  lemma ClnPageKeeps(s: State, p: nat, n: nat, b: nat)
    requires Inv(s) && p < |s.procs| && s.procs[p] == ClnScan(n, b) && (b < n ==> IsBlock(s, b))
    ensures Inv(ClnPage(s, p, n, b)) && Grows(s, ClnPage(s, p, n, b))
  {
    assert ProcessOk(s, s.procs[p]);
    var t := ClnPage(s, p, n, b);
    SoundSame(s, t);
    MetaFsmGrow(s, t);
    assert FsmOk(t) by {
      forall k | k in t.fsm ensures IsBlock(t, k) {
        assert k in s.fsm ==> IsBlock(s, k);
      }
    }
    hide PagesOk, OnPages, AllThere, MetaOk, FsmOk, ProcessesOk;
    LockedExist(s, p);
    ChangeSparesNone(s, t, p);
    Moved(s, t, p, t.procs[p]);
  }

  /** Reading block b finds every matching tuple that was written to it. */
  lemma ReadFinds(s: State, sign: Words, b: nat, id: nat)
    requires Sound(s) && id < |s.written| && s.written[id].blk == b && id !in s.removed
    requires b < |s.pages| && Covers(s.written[id].tuple.sign, sign)
    ensures id in FoundOn(s.pages[b], sign)
  {
    hide Covers, OnPages;
    assert WrittenOk(s, id);
    assert PageOk(s.size, b, s.pages[b]);
    assert s.written[id].tuple in Scanned(s.pages[b], sign);
  }

  lemma ReadIsSound(s: State, sign: Words, b: nat, id: nat)
    requires Sound(s) && b < |s.pages| && id in FoundOn(s.pages[b], sign)
    ensures id < |s.written| && Covers(s.written[id].tuple.sign, sign)
  {
    hide Covers, PagesOk, AllThere;
    var t :| t in Scanned(s.pages[b], sign) && t.id == id;
    assert t in TuplesOf(s.pages[b]);
    assert TupleOk(s, b, t);
  }

  lemma ScnPageFinds(s: State, sign: Words, b: nat, found: set<nat>, since: nat)
    requires Sound(s) && b < |s.pages| && FoundOk(s, sign, b, found, since)
    ensures FoundOk(s, sign, b + 1, found + FoundOn(s.pages[b], sign), since)
  {
    hide Covers, PagesOk, AllThere, OnPages, FoundOn;
    var more := FoundOn(s.pages[b], sign);
    forall id | id in more ensures id < |s.written| && Covers(s.written[id].tuple.sign, sign) {
      ReadIsSound(s, sign, b, id);
    }
    forall id | 0 <= id < since && s.written[id].blk < b + 1 && Covers(s.written[id].tuple.sign, sign)
      ensures id in found + more || id in s.removed
    {
      if id !in s.removed && s.written[id].blk == b { ReadFinds(s, sign, b, id); }
    }
  }

  lemma ScnPageKeeps(s: State, p: nat, sign: Words, n: nat, b: nat, found: set<nat>, since: nat)
    requires Inv(s) && p < |s.procs| && s.procs[p] == ScnScan(sign, n, b, found, since)
    requires b < n ==> IsBlock(s, b)
    ensures Inv(ScnPage(s, p, sign, n, b, found, since)) && Grows(s, ScnPage(s, p, sign, n, b, found, since))
  {
    assert ProcessOk(s, s.procs[p]);
    hide PagesOk, OnPages, AllThere, MetaOk, FsmOk, ProcessesOk, FoundOk, FoundOn;
    if b >= n {
      FoundFewer(s, sign, b, n, found, since);
      GotoKeeps(s, p, ScnDone(sign, n, found, since));
    } else {
      ScnPageFinds(s, sign, b, found, since);
      GotoKeeps(s, p, ScnScan(sign, n, b + 1, found + FoundOn(s.pages[b], sign), since));
    }
  }

  lemma FoundFewer(s: State, sign: Words, b: nat, n: nat, found: set<nat>, since: nat)
    requires n <= b && FoundOk(s, sign, b, found, since)
    ensures FoundOk(s, sign, n, found, since)
  {
    hide Covers;
  }

  lemma StartOk(s: State, sign: Words, dead: set<nat>)
    requires Inv(s)
    ensures ProcessOk(s, ScnScan(sign, |s.pages|, 1, {}, |s.written|))
    ensures ProcessOk(s, VacScan(dead, |s.pages|, 1, [], |s.written|))
  {
    forall id | 0 <= id < |s.written| ensures 1 <= s.written[id].blk < |s.pages| {
      assert WrittenOk(s, id);
    }
  }

  lemma StepKeeps(s: State, p: nat, block: nat)
    requires Inv(s) && p < |s.procs| && CanStep(s, p, block)
    ensures Inv(DoStep(s, p, block)) && Grows(s, DoStep(s, p, block))
  {
    assert ProcessOk(s, s.procs[p]);
    hide Inv, Grows, PageFree, MetaFree, ReadMeta, TryPage, LockMeta, TryNext, Allocate, CheckFree, WriteNew,
      VacPage, VacWrite, ClnPage, ScnPage, FoundOk, ListOk;
    match s.procs[p] {
      case InsFirst(row) => ReadMetaKeeps(s, p, row);
      case InsTry(row, b) => TryPageKeeps(s, p, row, b);
      case InsSecond(row, tried) => LockMetaKeeps(s, p, row, tried);
      case InsLoop(row, n) => TryNextKeeps(s, p, row, n);
      case InsAlloc(row) => AllocateKeeps(s, p, row, block);
      case InsCheck(row, b) => CheckFreeKeeps(s, p, row, b, block == b);
      case InsWrite(row, b) => WriteNewKeeps(s, p, row, b);
      case VacScan(dead, n, b, list, since) => VacPageKeeps(s, p, dead, n, b, list, since);
      case VacMeta(_, _, list, _) => VacWriteKeeps(s, p, list);
      case ClnScan(n, b) => ClnPageKeeps(s, p, n, b);
      case ScnScan(sign, n, b, found, since) => ScnPageKeeps(s, p, sign, n, b, found, since);
    }
  }

  /** Every action keeps the invariant, and the histories only grow. */
  lemma ActionKeeps(s: State, a: Action)
    requires Inv(s) && Can(s, a)
    ensures Inv(Do(s, a)) && Grows(s, Do(s, a))
  {
    hide Inv, Grows, CanStep, DoStep;
    match a {
      case Step(p, block) => StepKeeps(s, p, block);
      case StartScan(p, sign) =>
        StartOk(s, sign, {});
        GotoKeeps(s, p, ScnScan(sign, |s.pages|, 1, {}, |s.written|));
      case StartVacuum(p, dead) =>
        StartOk(s, [], dead);
        GotoKeeps(s, p, VacScan(dead, |s.pages|, 1, [], |s.written|));
      case _ =>
        GotoKeeps(s, a.p, Do(s, a).procs[a.p]);
    }
  }

  // ----- runs --------------------------------------------------------------

  predicate Legal(s: State, run: seq<Action>)
    decreases |run|
  {
    run == [] || (Can(s, run[0]) && Legal(Do(s, run[0]), run[1..]))
  }

  function After(s: State, run: seq<Action>): State
    requires Legal(s, run)
    decreases |run|
  {
    if run == [] then s else After(Do(s, run[0]), run[1..])
  }

  /** Whatever the processes do and however they interleave, the invariant
      holds, and no written tuple is forgotten. */
  lemma {:induction false} RunKeeps(s: State, run: seq<Action>)
    requires Inv(s) && Legal(s, run)
    ensures Inv(After(s, run)) && Grows(s, After(s, run))
    decreases |run|
  {
    hide Inv, Can, Do, Grows;
    if run == [] {
      GrowsSelf(s);
    } else {
      ActionKeeps(s, run[0]);
      RunKeeps(Do(s, run[0]), run[1..]);
      GrowsTrans(s, Do(s, run[0]), After(s, run));
    }
  }

  lemma GrowsSelf(s: State)
    ensures Grows(s, s)
  {
  }

  lemma GrowsTrans(s: State, t: State, u: State)
    requires Grows(s, t) && Grows(t, u)
    ensures Grows(s, u)
  {
  }

  /** At every moment a written tuple is on exactly one page, at one place,
      unless it was vacuumed, and then on none. */
  lemma OnePlace(s: State, id: nat)
    requires Inv(s) && id < |s.written|
    ensures id !in s.removed <==> exists b: nat, i: nat :: At(s, b, i, id)
    ensures forall b: nat, i: nat, c: nat, j: nat :: At(s, b, i, id) && At(s, c, j, id) ==> b == c && i == j
  {
    if id !in s.removed {
      var i := PlaceOf(s, id);
      assert At(s, s.written[id].blk, i, id);
    }
    hide Inv, At;
    forall b: nat, i: nat | At(s, b, i, id) ensures id !in s.removed {
      PlaceIsWritten(s, b, i, id);
    }
    forall b: nat, i: nat, c: nat, j: nat | At(s, b, i, id) && At(s, c, j, id) ensures b == c && i == j {
      PlaceIsWritten(s, b, i, id);
      PlaceIsWritten(s, c, j, id);
      SamePlace(s, b, i, j, id);
    }
  }

  lemma PlaceOf(s: State, id: nat) returns (i: nat)
    requires Inv(s) && id < |s.written| && id !in s.removed
    ensures At(s, s.written[id].blk, i, id)
  {
    hide PagesOk, MetaOk, FsmOk, ProcessesOk, OnPages;
    assert WrittenOk(s, id);
    var w := s.written[id];
    i :| 0 <= i < |TuplesOf(s.pages[w.blk])| && TuplesOf(s.pages[w.blk])[i] == w.tuple;
  }

  lemma PlaceIsWritten(s: State, b: nat, i: nat, id: nat)
    requires Inv(s) && At(s, b, i, id) && id < |s.written|
    ensures s.written[id].blk == b && id !in s.removed
  {
    hide PagesOk, MetaOk, FsmOk, ProcessesOk, AllThere, Rising;
    assert TuplesOf(s.pages[b])[i] in TuplesOf(s.pages[b]);
    assert TupleOk(s, b, TuplesOf(s.pages[b])[i]);
  }

  lemma SamePlace(s: State, b: nat, i: nat, j: nat, id: nat)
    requires Inv(s) && At(s, b, i, id) && At(s, b, j, id)
    ensures i == j
  {
    hide PagesOk, MetaOk, FsmOk, ProcessesOk, AllThere;
    assert Rising(TuplesOf(s.pages[b]));
  }

  /** Tuple number id is the i-th of page b. */
  predicate At(s: State, b: nat, i: nat, id: nat) {
    b < |s.pages| && i < |TuplesOf(s.pages[b])| && TuplesOf(s.pages[b])[i].id == id
  }

  /** A live tuple is never overwritten or moved to another page. */
  lemma StaysOnItsPage(s: State, run: seq<Action>, b: nat, t: Tuple)
    requires Inv(s) && Legal(s, run) && b < |s.pages| && t in TuplesOf(s.pages[b])
    ensures var u := After(s, run);
      b < |u.pages| && (t in TuplesOf(u.pages[b]) <==> t.id !in u.removed)
  {
    RunKeeps(s, run);
    var u := After(s, run);
    hide PagesOk, MetaOk, FsmOk, ProcessesOk, Legal, After;
    assert TupleOk(s, b, t);
    assert WrittenOk(u, t.id);
    if t in TuplesOf(u.pages[b]) { assert TupleOk(u, b, t); }
  }

  /** Only bulk deletion removes tuples, and only those of dead rows. */
  lemma RemovedAreDead(s: State, a: Action, id: nat)
    requires Inv(s) && Can(s, a) && id in Do(s, a).removed && id !in s.removed
    ensures a.Step? && s.procs[a.p].VacScan? && id < |s.written|
    ensures s.written[id].tuple.tid in s.procs[a.p].dead
  {
    hide PagesOk, MetaOk, FsmOk, ProcessesOk, AllThere, PageFree, MetaFree, Vacuumed, Room, Listed, Scanned;
    var pc := s.procs[a.p];
    var page := s.pages[pc.blk];
    assert id in DeadOn(page, pc.dead);
    var t :| t in page.tuples && t.tid in pc.dead && t.id == id;
    assert t in TuplesOf(page);
    assert TupleOk(s, pc.blk, t);
  }

  /** A finished scan has found every matching tuple that was written before it
      began and is not removed, and nothing that does not match. */
  lemma ScanIsExact(s: State, run: seq<Action>, p: nat)
    requires Inv(s) && Legal(s, run) && p < |After(s, run).procs| && After(s, run).procs[p].ScnDone?
    ensures var u := After(s, run); var pc := u.procs[p];
      pc.since <= |u.written| &&
      (forall id :: 0 <= id < pc.since && id !in u.removed && Covers(u.written[id].tuple.sign, pc.sign) ==> id in pc.found) &&
      forall id :: id in pc.found ==> id < |u.written| && Covers(u.written[id].tuple.sign, pc.sign)
  {
    RunKeeps(s, run);
    var u := After(s, run);
    hide PagesOk, MetaOk, FsmOk, OnPages, AllThere, Covers, Legal, After;
    assert ProcessOk(u, u.procs[p]);
  }

  /** When bulk deletion comes to rewrite the metapage, every dead row that was
      indexed when it began is gone from the pages. */
  lemma VacuumIsComplete(s: State, run: seq<Action>, p: nat, b: nat, t: Tuple)
    requires Inv(s) && Legal(s, run) && p < |After(s, run).procs| && After(s, run).procs[p].VacMeta?
    requires b < |After(s, run).pages| && t in TuplesOf(After(s, run).pages[b])
    requires t.id < After(s, run).procs[p].since
    ensures t.tid !in After(s, run).procs[p].dead
  {
    RunKeeps(s, run);
    var u := After(s, run);
    hide PagesOk, MetaOk, FsmOk, AllThere, Legal, After;
    assert ProcessOk(u, u.procs[p]);
    assert TupleOk(u, b, t);
  }

  /** So a scan returns the row behind every indexed tuple whose columns equal
      its keys. */
  lemma ScanFindsRows(s: State, run: seq<Action>, p: nat, id: nat, o: Options, row: seq<Column>, keys: seq<ScanKey>)
    requires Inv(s) && Legal(s, run) && p < |After(s, run).procs| && After(s, run).procs[p].ScnDone?
    requires ValidRow(o, row) && RowSatisfies(row, keys) && ValidKeys(o, keys)
    requires After(s, run).procs[p].sign == ScanSign(o, keys)
    requires id < After(s, run).procs[p].since <= |After(s, run).written| && id !in After(s, run).removed
    requires After(s, run).written[id].tuple.sign == RowSign(o, row, |row|)
    ensures id in After(s, run).procs[p].found
  {
    hide Inv, Legal, After, Covers, ValidRow, RowSatisfies, RowSign, ScanSign, ValidKeys;
    ScanIsExact(s, run, p);
    RowCoversScan(o, row, keys);
  }

  // ----- progress ----------------------------------------------------------

  predicate Busy(pc: Process) {
    !pc.Idle? && !pc.ScnDone?
  }

  /** The process that keeps the metapage locked can always go on. */
  lemma HolderMoves(s: State, p: nat)
    requires Inv(s) && p < |s.procs| && LocksMeta(s.procs[p])
    ensures CanStep(s, p, |s.pages|)
  {
    assert ProcessOk(s, s.procs[p]);
    var pc := s.procs[p];
    if pc.InsLoop? && pc.nStart < s.meta.nEnd {
      assert IsBlock(s, s.meta.notFull[pc.nStart]);
      OnlyHolder(s, p, s.meta.notFull[pc.nStart]);
    }
  }

  lemma FreeMoves(s: State, p: nat)
    requires Inv(s) && p < |s.procs| && Busy(s.procs[p])
    requires forall q :: 0 <= q < |s.procs| ==> !LocksMeta(s.procs[q])
    ensures CanStep(s, p, |s.pages|)
  {
    assert ProcessOk(s, s.procs[p]);
    assert MetaFree(s, p);
    assert forall b :: PageFree(s, p, b) by {
      forall b, q | 0 <= q < |s.procs| ensures !LocksPage(s.procs[q], b) {
        assert !LocksMeta(s.procs[q]);
      }
    }
  }

  /** There is no deadlock: while any process has work left, one can go on. */
  lemma SomeoneMoves(s: State, p: nat)
    requires Inv(s) && p < |s.procs| && Busy(s.procs[p])
    ensures exists q :: 0 <= q < |s.procs| && CanStep(s, q, |s.pages|)
  {
    hide Inv, CanStep;
    if q :| 0 <= q < |s.procs| && LocksMeta(s.procs[q]) {
      HolderMoves(s, q);
    } else {
      FreeMoves(s, p);
    }
  }
}
