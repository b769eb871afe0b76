/**
 Boolean queries on an inverted (GIN) index: which values are looked up, which
 rows the index must visit, and the decision for each visited row.
 */
module IntQueryGin {
  import opened IntQuery

  /** The values of the items, in item order: the entries GIN looks up. */
  function Entries(items: seq<Item>): seq<int> {
    if items == [] then []
    else Entries(items[..|items| - 1]) +
         (if items[|items| - 1].node.NVal? then [items[|items| - 1].node.val] else [])
  }

  /** What a query asks of the index: nothing when it is empty, else entries to
      look up and whether some of them is needed, so that the rows without any can
      be left alone; None when the search for a needed value leaves the items. */
  datatype Extracted = Nothing | Extracted(entries: seq<int>, needed: Option<bool>)

  method QueryExtract(items: seq<Item>, ghost q: Query) returns (r: Extracted)
    requires items != [] ==> LinkedEnd(items, |items| - 1, q)
    ensures items == [] ==> r == Nothing
    ensures items != [] ==> r == Extracted(Entries(items), ContainsRequiredValue(items, |items| - 1))
    ensures items != [] && RightOperandsFit(q) ==> r.needed == Some(Required(q))
  {
    if |items| == 0 {
      return Nothing;
    }
    if RightOperandsFit(q) { ContainsRequiredValueMeansRequired(items, |items| - 1, q); }
    var needed := ContainsRequiredValue(items, |items| - 1);
    var entries := [];
    assert items[..0] == [];
    for i := 0 to |items|
      invariant entries == Entries(items[..i])
    {
      assert items[..i + 1][..i] == items[..i];
      if items[i].node.NVal? {
        entries := entries + [items[i].node.val];
      }
    }
    assert items[..|items|] == items;
    return Extracted(entries, needed);
  }

  /** A row's check vector: which entries the row contains. */
  ghost predicate Checks(entries: seq<int>, check: seq<bool>, holds: int -> bool) {
    |check| == |entries| && forall j :: 0 <= j < |entries| ==> check[j] == holds(entries[j])
  }

  lemma {:induction false} EntriesPrefix(items: seq<Item>, i: nat)
    requires i <= |items|
    ensures |Entries(items[..i])| <= |Entries(items)|
    ensures Entries(items)[..|Entries(items[..i])|] == Entries(items[..i])
    ensures i < |items| && items[i].node.NVal? ==>
              && |Entries(items[..i])| < |Entries(items)|
              && Entries(items)[|Entries(items[..i])|] == items[i].node.val
    decreases |items|
  {
    if i == |items| {
      assert items[..i] == items;
    } else {
      var short := items[..|items| - 1];
      EntriesPrefix(short, i);
      assert short[..i] == items[..i];
      if i == |items| - 1 {
        assert short == items[..i];
      } else {
        assert short[i] == items[i];
      }
    }
  }

  /** The entry of the check vector for item i. */
  function EntryCheck(items: seq<Item>, check: seq<bool>): (int, int) -> bool {
    (i, v) => 0 <= i < |items| && |Entries(items[..i])| < |check| && check[|Entries(items[..i])|]
  }

  /** What the index decides of a row from its check vector. */
  function Decision(items: seq<Item>, check: seq<bool>): Option<bool> {
    if items == [] then Some(false) else Execute(items, |items| - 1, true, EntryCheck(items, check))
  }

  /** Maps the check vector to the items and evaluates the query. */
  method BoolConsistent(items: seq<Item>, check: seq<bool>) returns (r: Option<bool>)
    requires |check| == |Entries(items)|
    ensures r == Decision(items, check)
  {
    if |items| <= 0 {
      return Some(false);
    }
    var mapped := new bool[|items|](_ => false);
    var j := 0;
    assert items[..0] == [];
    for i := 0 to |items|
      invariant j == |Entries(items[..i])|
      invariant forall k :: 0 <= k < i && items[k].node.NVal? ==> mapped[k] == EntryCheck(items, check)(k, items[k].node.val)
    {
      assert items[..i + 1][..i] == items[..i];
      if items[i].node.NVal? {
        EntriesPrefix(items, i);
        mapped[i] := check[j];
        j := j + 1;
      }
    }
    var m := mapped[..];
    var chk := (i: int, v: int) => 0 <= i < |m| && m[i];
    ExecuteSame(items, |items| - 1, true, chk, EntryCheck(items, check));
    r := Execute(items, |items| - 1, true, chk);
  }

  lemma {:induction false} ValsAreNodes(items: seq<Item>, cur: int, q: Query, v: int)
    requires LinkedEnd(items, cur, q) && v in Vals(q)
    ensures exists i :: 0 <= i < |items| && items[i].node == NVal(v)
  {
    match q
    case Val(w) => assert items[cur].node == NVal(v);
    case Not(a) => ValsAreNodes(items, cur - 1, a, v);
    case And(l, r) => if v in Vals(r) { ValsAreNodes(items, cur - 1, r, v); } else { ValsAreNodes(items, cur - 1 - Size(r), l, v); }
    case Or(l, r) => if v in Vals(r) { ValsAreNodes(items, cur - 1, r, v); } else { ValsAreNodes(items, cur - 1 - Size(r), l, v); }
  }

  /** A row is returned when the index visits it, because no value is needed or the
      row contains one of the entries, and the decision accepts it. */
  predicate Returned(items: seq<Item>, check: seq<bool>)
    requires items != []
  {
    (ContainsRequiredValue(items, |items| - 1) == Some(true) ==> true in check) && Decision(items, check) == Some(true)
  }

  /** A row that has an entry for a value of the query has it in its check vector. */
  lemma ValueIsChecked(items: seq<Item>, check: seq<bool>, q: Query, holds: int -> bool, v: int)
    requires items != [] && LinkedEnd(items, |items| - 1, q) && Checks(Entries(items), check, holds)
    requires v in Vals(q) && holds(v)
    ensures true in check
  {
    ValsAreNodes(items, |items| - 1, q, v);
    var i :| 0 <= i < |items| && items[i].node == NVal(v);
    EntriesPrefix(items, i);
    assert check[|Entries(items[..i])|];
  }

  /** The decision on a row is the operator's own, whatever the links; and with true
      links the index returns exactly the rows whose array satisfies the query. */
  lemma GinAgreesWithBoolop(items: seq<Item>, check: seq<bool>, q: Query, holds: int -> bool)
    requires items != [] && LinkedEnd(items, |items| - 1, q) && Checks(Entries(items), check, holds)
    ensures Decision(items, check) == Execute(items, |items| - 1, true, RowCheck(holds))
    ensures Eval(q, holds) && Required(q) ==> true in check
    ensures RightOperandsFit(q) ==> (Returned(items, check) <==> Eval(q, holds))
  {
    forall i | 0 <= i < |items| && items[i].node.NVal?
      ensures EntryCheck(items, check)(i, items[i].node.val) == holds(items[i].node.val)
    {
      EntriesPrefix(items, i);
    }
    ExecuteSame(items, |items| - 1, true, EntryCheck(items, check), RowCheck(holds));
    if Eval(q, holds) && Required(q) {
      RequiredValueIsPresent(q, holds);
      var v :| v in Vals(q) && holds(v);
      ValueIsChecked(items, check, q, holds, v);
    }
    if RightOperandsFit(q) {
      ContainsRequiredValueMeansRequired(items, |items| - 1, q);
      ExecuteMeansEval(items, |items| - 1, q, true, RowCheck(holds), holds);
    }
  }
}
