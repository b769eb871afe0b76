/** A single insertion, followed from start to end. */
module BloomInsert {
  import opened BloomPage
  import opened BloomIndex
  import opened BloomRuns

  predicate Inserting(pc: Process, row: Row) {
    (pc.InsFirst? || pc.InsTry? || pc.InsSecond? || pc.InsLoop? || pc.InsAlloc? || pc.InsCheck? || pc.InsWrite?) &&
    pc.row == row
  }

  /** How far the insertion still has to go: its phase, then within the phase. */
  function Phase(pc: Process): nat {
    match pc
    case InsFirst(_) => 6
    case InsTry(_, _) => 5
    case InsSecond(_, _) => 4
    case InsLoop(_, _) => 3
    case InsAlloc(_) => 2
    case InsCheck(_, _) => 2
    case InsWrite(_, _) => 1
    case _ => 0
  }

  function Left(s: State, pc: Process): nat {
    match pc
    case InsLoop(_, n) => if n < s.meta.nEnd then s.meta.nEnd - n else 0
    case InsAlloc(_) => 2 * |s.fsm| + 1
    case InsCheck(_, _) => 2 * |s.fsm| + 2
    case _ => 0
  }

  predicate Finished(s: State, t: State, p: nat, row: Row)
    requires p < |t.procs|
  {
    var n := |s.written|;
    t.procs[p].Idle? && |t.written| == n + 1 && t.written[..n] == s.written && t.written[n].tuple == NewTuple(s, row)
  }

  /** A step either finishes the insertion or writes nothing and comes closer. */
  lemma InsertStep(s: State, p: nat, row: Row, block: nat)
    requires Inv(s) && p < |s.procs| && CanStep(s, p, block) && Inserting(s.procs[p], row)
    ensures var t := DoStep(s, p, block); var pc := s.procs[p]; var pc' := t.procs[p];
      t.removed == s.removed && t.procs == s.procs[p := pc'] &&
      if pc'.Idle? then Finished(s, t, p, row)
      else t.written == s.written && Inserting(pc', row) &&
           (Phase(pc') < Phase(pc) || (Phase(pc') == Phase(pc) && Left(t, pc') < Left(s, pc)))
  {
    hide PagesOk, OnPages, AllThere, FsmOk, ProcessesOk, Initialised, Fits, PageFree, MetaFree;
  }

  /** With nobody in its way an insertion ends, having written the row once. */
  method Insert(s: State, p: nat, row: Row) returns (t: State)
    requires Inv(s) && p < |s.procs| && forall q :: 0 <= q < |s.procs| ==> s.procs[q].Idle?
    ensures Inv(t) && Grows(s, t) && t.removed == s.removed && t.procs == s.procs && Finished(s, t, p, row)
  {
    hide Inv, Grows, Do, DoStep, CanStep;
    ActionKeeps(s, StartInsert(p, row));
    t := Do(s, StartInsert(p, row));
    StartIsFirst(s, p, row);
    while !t.procs[p].Idle?
      invariant Inv(t) && Grows(s, t) && t.removed == s.removed
      invariant |t.procs| == |s.procs| && forall q :: 0 <= q < |s.procs| && q != p ==> t.procs[q] == s.procs[q]
      invariant if t.procs[p].Idle? then Finished(s, t, p, row) else t.written == s.written && Inserting(t.procs[p], row)
      decreases Phase(t.procs[p]), Left(t, t.procs[p])
    {
      AloneMoves(t, p);
      var block := |t.pages|;
      if t.procs[p].InsCheck? {
        block := t.procs[p].blk;
        AnyFree(t, p, block);
      } else if t.fsm != {} {
        block :| block in t.fsm;
        AnyFree(t, p, block);
      }
      InsertStep(t, p, row, block);
      StepKeeps(t, p, block);
      GrowsTrans(s, t, DoStep(t, p, block));
      t := DoStep(t, p, block);
    }
  }

  lemma StartIsFirst(s: State, p: nat, row: Row)
    requires p < |s.procs| && s.procs[p].Idle?
    ensures Do(s, StartInsert(p, row)) == Goto(s, p, InsFirst(row))
  {
  }

  lemma AloneMoves(s: State, p: nat)
    requires Inv(s) && p < |s.procs| && Busy(s.procs[p])
    requires forall q :: 0 <= q < |s.procs| && q != p ==> s.procs[q].Idle?
    ensures CanStep(s, p, |s.pages|)
  {
    hide Inv, CanStep;
    if LocksMeta(s.procs[p]) { HolderMoves(s, p); } else { FreeMoves(s, p); }
  }

  lemma AnyFree(s: State, p: nat, block: nat)
    requires p < |s.procs| && CanStep(s, p, |s.pages|) && (block in s.fsm || s.procs[p].InsCheck?)
    ensures CanStep(s, p, block)
  {
  }
}
