/** Building a bloom index: rows go to a cached page that is written out each
    time it fills. */
module BloomBuild {
  import opened BloomPage
  import opened BloomIndex
  import opened BloomRuns

  /** A freshly built index with idle processes. */
  function Built(size: nat, pages: seq<Page>, written: seq<Placed>, procs: nat): State {
    State(size, pages, Meta(0, 0, seq(BLOCKN, _ => 0)), {}, seq(procs, _ => Idle), written, {})
  }

  /** The written tuples are the rows, in order. */
  predicate AreRows(written: seq<Placed>, rows: seq<Row>) {
    |written| == |rows| &&
    forall i :: 0 <= i < |rows| ==> written[i].tuple == Tuple(i, rows[i].tid, rows[i].sign)
  }

  lemma BuiltInv(size: nat, pages: seq<Page>, written: seq<Placed>, procs: nat)
    requires Sound(Built(size, pages, written, 0))
    ensures Inv(Built(size, pages, written, procs))
  {
    var t := Built(size, pages, written, procs);
    SoundSame(Built(size, pages, written, 0), t);
    hide PagesOk, OnPages, AllThere;
    assert MetaOk(t) && FsmOk(t) && ProcessesOk(t);
  }

  class Builder {
    const size: nat
    const data: Buffer
    var count: nat
    var indtuples: nat
    var pages: seq<Page>
    ghost var written: seq<Placed>

    /** The index as it would be if the cached page were written out now. */
    ghost function Snapshot(): State
      requires data.Valid()
      reads this, data, data.items
    {
      Built(size, pages + [if count == 0 then NewPage else data.Contents()], written, 0)
    }

    ghost predicate Valid()
      reads this, data, data.items
    {
      && data.Valid() && data.size == size && !data.isNew && !data.deleted
      && data.maxoff == count && indtuples == |written| && |pages| > 0 && Sound(Snapshot())
    }

    /** Only the metapage so far. */
    constructor (size: nat)
      requires 0 < size <= SPACE
      ensures Valid() && written == [] && fresh(data) && fresh(data.items) && this.size == size
    {
      this.size := size;
      data := new Buffer(size);
      pages, count, indtuples, written := [MetaPage], 0, 0, [];
      new;
      data.Init();
      assert Sound(Snapshot()) by { EmptySound(size); }
    }

    /** The cached page goes to a new block. */
    method Flush()
      requires Valid() && count > 0
      modifies this, data
      ensures Valid() && count == 0 && indtuples == old(indtuples) && written == old(written)
      ensures pages == old(pages) + [old(data.Contents())]
    {
      ghost var was := Snapshot();
      ExtendKeeps(was);
      pages := pages + [DataPage(data.deleted, data.items[..data.maxoff])];
      data.Init();
      count := 0;
      assert Snapshot() == was.(pages := was.pages + [NewPage]);
    }

    /** Adds the row to the cached page when it fits. */
    method AddCached(row: Row) returns (ok: bool)
      requires Valid()
      modifies this, data, data.items
      ensures Valid() && (ok <==> Fits(size, old(count)))
      ensures ok ==> written == old(written) + [Placed(Tuple(|old(written)|, row.tid, row.sign), |old(pages)|)]
      ensures !ok ==> written == old(written) && count == old(count) && pages == old(pages)
    {
      ghost var was := Snapshot();
      if Fits(size, count) {
        CachedRoom(size, count, data.Contents());
        PutKeeps(was, row, |pages|);
      }
      hide Sound, Fits, Room;
      ok := data.AddItem(Tuple(indtuples, row.tid, row.sign));
      if ok {
        written := written + [Placed(Tuple(indtuples, row.tid, row.sign), |pages|)];
        count := count + 1;
        indtuples := indtuples + 1;
        assert Snapshot() == Put(was, row, |pages|);
      } else {
        assert Snapshot() == was;
      }
    }

    /** What the heap scan calls for each row. */
    method Callback(row: Row)
      requires Valid()
      modifies this, data, data.items
      ensures Valid()
      ensures exists b :: written == old(written) + [Placed(Tuple(|old(written)|, row.tid, row.sign), b)]
    {
      hide Sound;
      var ok := AddCached(row);
      if !ok {
        Flush();
        ok := AddCached(row);
        assert ok;
      }
    }
  }

  /** Builds the index of a table. */
  method Build(size: nat, rows: seq<Row>, procs: nat) returns (pages: seq<Page>, ghost written: seq<Placed>)
    requires 0 < size <= SPACE
    ensures Inv(Built(size, pages, written, procs)) && AreRows(written, rows)
  {
    hide Sound;
    var b := new Builder(size);
    for i := 0 to |rows|
      invariant b.Valid() && fresh(b) && fresh(b.data) && fresh(b.data.items) && b.size == size
      invariant AreRows(b.written, rows[..i])
    {
      b.Callback(rows[i]);
    }
    assert rows[..|rows|] == rows;
    if b.count > 0 {
      b.Flush();
    }
    DropNew(size, b.pages, b.written);
    BuiltInv(size, b.pages, b.written, procs);
    return b.pages, b.written;
  }

  lemma DropNew(size: nat, pages: seq<Page>, written: seq<Placed>)
    requires |pages| > 0 && Sound(Built(size, pages + [NewPage], written, 0))
    ensures Sound(Built(size, pages, written, 0))
  {
    var s, t := Built(size, pages + [NewPage], written, 0), Built(size, pages, written, 0);
    forall b | 0 <= b < |pages| ensures s.pages[b] == t.pages[b] {
    }
    assert OnPages(t) by {
      hide PagesOk, AllThere;
      forall b, u | 0 <= b < |pages| && u in TuplesOf(t.pages[b]) ensures TupleOk(t, b, u) {
        assert TupleOk(s, b, u);
      }
    }
    assert AllThere(t) by {
      hide PagesOk, OnPages;
      forall id | 0 <= id < |written| ensures WrittenOk(t, id) {
        assert WrittenOk(s, id);
      }
    }
  }

  lemma CachedRoom(size: nat, count: nat, p: Page)
    requires p.DataPage? && !p.deleted && |p.tuples| == count && Fits(size, count)
    ensures var q := Initialised(if count == 0 then NewPage else p); q == p && Fits(size, |q.tuples|)
  {
  }

  lemma EmptySound(size: nat)
    requires 0 < size <= SPACE
    ensures Sound(Built(size, [MetaPage, NewPage], [], 0))
  {
  }
}
