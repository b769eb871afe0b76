/**
 Boolean queries over integer arrays (type query_int): the abstract query, its
 postfix item array with back-links to left operands, and the evaluator that
 follows those links.
 */
module IntQuery {

  datatype Option<+T> = None | Some(value: T)

  /** A boolean query as a tree. */
  datatype Query =
    | Val(v: int)
    | Not(arg: Query)
    | And(left: Query, right: Query)
    | Or(left: Query, right: Query)

  /** The truth value of a query, given which integers are present. */
  predicate Eval(q: Query, holds: int -> bool) {
    match q
    case Val(v) => holds(v)
    case Not(a) => !Eval(a, holds)
    case And(l, r) => Eval(l, holds) && Eval(r, holds)
    case Or(l, r) => Eval(l, holds) || Eval(r, holds)
  }

  /** The evaluation used on lossy keys: a negation is never trusted. */
  predicate EvalLossy(q: Query, holds: int -> bool) {
    match q
    case Val(v) => holds(v)
    case Not(a) => true
    case And(l, r) => EvalLossy(l, holds) && EvalLossy(r, holds)
    case Or(l, r) => EvalLossy(l, holds) || EvalLossy(r, holds)
  }

  /** The integers a query mentions. */
  function Vals(q: Query): set<int> {
    match q
    case Val(v) => {v}
    case Not(a) => Vals(a)
    case And(l, r) => Vals(l) + Vals(r)
    case Or(l, r) => Vals(l) + Vals(r)
  }

  function Size(q: Query): (n: nat)
    ensures n > 0
  {
    match q
    case Val(v) => 1
    case Not(a) => Size(a) + 1
    case And(l, r) => Size(l) + Size(r) + 1
    case Or(l, r) => Size(l) + Size(r) + 1
  }

  /** What the parser pushes: a value or an operator character. */
  datatype Node = NVal(val: int) | NOpr(op: char)

  function Postfix(q: Query): (p: seq<Node>)
    ensures |p| == Size(q) > 0
  {
    match q
    case Val(v) => [NVal(v)]
    case Not(a) => Postfix(a) + [NOpr('!')]
    case And(l, r) => Postfix(l) + Postfix(r) + [NOpr('&')]
    case Or(l, r) => Postfix(l) + Postfix(r) + [NOpr('|')]
  }

  /** A stored item: the node and the 16-bit distance to its left operand. */
  datatype Item = Item(node: Node, left: int)

  /** Conversion of an int to int16. */
  function Int16(n: int): (r: int)
    ensures -32768 <= r <= 32767
    ensures r == n <==> -32768 <= n <= 32767
  {
    (n + 32768) % 65536 - 32768
  }

  function LinkDistance(q: Query): int
    requires q.And? || q.Or?
  {
    -(Size(q.right) + 1)
  }

  /** A binary operator with its distance stored in 16 bits. */
  function OperatorItem(q: Query): Item
    requires q.And? || q.Or?
  {
    Item(NOpr(if q.And? then '&' else '|'), Int16(LinkDistance(q)))
  }

  /** The postfix form of q occupies the nodes that end at cur. */
  ghost predicate NodesEnd(nodes: seq<Node>, cur: int, q: Query) {
    0 <= cur < |nodes| &&
    match q
    case Val(v) => nodes[cur] == NVal(v)
    case Not(a) => nodes[cur] == NOpr('!') && NodesEnd(nodes, cur - 1, a)
    case And(l, r) => nodes[cur] == NOpr('&') && NodesEnd(nodes, cur - 1, r) && NodesEnd(nodes, cur - 1 - Size(r), l)
    case Or(l, r) => nodes[cur] == NOpr('|') && NodesEnd(nodes, cur - 1, r) && NodesEnd(nodes, cur - 1 - Size(r), l)
  }

  /** The items that end at cur are those of q with every link filled in. */
  ghost predicate LinkedEnd(items: seq<Item>, cur: int, q: Query) {
    0 <= cur < |items| &&
    match q
    case Val(v) => items[cur] == Item(NVal(v), 0)
    case Not(a) => items[cur] == Item(NOpr('!'), -1) && LinkedEnd(items, cur - 1, a)
    case And(l, r) => items[cur] == OperatorItem(q) && LinkedEnd(items, cur - 1, r) && LinkedEnd(items, cur - 1 - Size(r), l)
    case Or(l, r) => items[cur] == OperatorItem(q) && LinkedEnd(items, cur - 1, r) && LinkedEnd(items, cur - 1 - Size(r), l)
  }

  lemma {:induction false} NodesEndReach(nodes: seq<Node>, cur: int, q: Query)
    requires NodesEnd(nodes, cur, q)
    ensures Size(q) - 1 <= cur
  {
    match q
    case Val(v) =>
    case Not(a) => NodesEndReach(nodes, cur - 1, a);
    case And(l, r) => NodesEndReach(nodes, cur - 1 - Size(r), l);
    case Or(l, r) => NodesEndReach(nodes, cur - 1 - Size(r), l);
  }

  /** A postfix sequence can be read as one query only. */
  lemma {:induction false} NodesEndUnique(nodes: seq<Node>, cur: int, q: Query, q': Query)
    requires NodesEnd(nodes, cur, q) && NodesEnd(nodes, cur, q')
    ensures q == q'
  {
    match q
    case Val(v) =>
    case Not(a) => NodesEndUnique(nodes, cur - 1, a, q'.arg);
    case And(l, r) =>
      NodesEndUnique(nodes, cur - 1, r, q'.right);
      NodesEndUnique(nodes, cur - 1 - Size(r), l, q'.left);
    case Or(l, r) =>
      NodesEndUnique(nodes, cur - 1, r, q'.right);
      NodesEndUnique(nodes, cur - 1 - Size(r), l, q'.left);
  }

  /** Only the items of q itself matter. */
  lemma {:induction false} LinkedEndFrame(items: seq<Item>, items': seq<Item>, cur: int, q: Query)
    requires LinkedEnd(items, cur, q) && |items| == |items'|
    requires forall k :: cur - Size(q) < k <= cur && 0 <= k ==> items[k] == items'[k]
    ensures LinkedEnd(items', cur, q)
  {
    match q
    case Val(v) =>
    case Not(a) => LinkedEndFrame(items, items', cur - 1, a);
    case And(l, r) =>
      LinkedEndFrame(items, items', cur - 1, r);
      LinkedEndFrame(items, items', cur - 1 - Size(r), l);
    case Or(l, r) =>
      LinkedEndFrame(items, items', cur - 1, r);
      LinkedEndFrame(items, items', cur - 1 - Size(r), l);
  }

  /** The postfix form, wherever it occurs, ends where it should. */
  lemma {:induction false} PostfixEnds(pre: seq<Node>, q: Query, post: seq<Node>)
    ensures NodesEnd(pre + Postfix(q) + post, |pre| + Size(q) - 1, q)
    decreases q
  {
    var nodes := pre + Postfix(q) + post;
    match q
    case Val(v) =>
    case Not(a) =>
      Regroup(pre, [], Postfix(a), NOpr('!'), post);
      assert [] + Postfix(a) == Postfix(a) && pre + [] == pre;
      PostfixEnds(pre, a, [NOpr('!')] + post);
    case And(l, r) => PostfixEndsOperands(pre, q, NOpr('&'), post);
    case Or(l, r) => PostfixEndsOperands(pre, q, NOpr('|'), post);
  }

  lemma PostfixAlone(q: Query)
    ensures NodesEnd(Postfix(q), Size(q) - 1, q)
  {
    hide NodesEnd, Postfix;
    PostfixEnds([], q, []);
    assert [] + Postfix(q) + [] == Postfix(q);
  }

  lemma {:induction false} PostfixEndsOperands(pre: seq<Node>, q: Query, op: Node, post: seq<Node>)
    requires (q.And? && op == NOpr('&')) || (q.Or? && op == NOpr('|'))
    ensures NodesEnd(pre + Postfix(q) + post, |pre| + Size(q) - 1, q)
    decreases q, 0
  {
    Regroup(pre, Postfix(q.left), Postfix(q.right), op, post);
    PostfixEnds(pre, q.left, Postfix(q.right) + [op] + post);
    PostfixEnds(pre + Postfix(q.left), q.right, [op] + post);
  }

  lemma Regroup<T>(pre: seq<T>, l: seq<T>, r: seq<T>, x: T, post: seq<T>)
    ensures pre + (l + r + [x]) + post == pre + l + (r + [x] + post)
    ensures pre + (l + r + [x]) + post == pre + l + r + ([x] + post)
    ensures (pre + (l + r + [x]) + post)[|pre| + |l| + |r|] == x
  {
  }

  function Nodes(s: seq<Item>): (r: seq<Node>)
    ensures |r| == |s| && forall i :: 0 <= i < |s| ==> r[i] == s[i].node
  {
    seq(|s|, i requires 0 <= i < |s| => s[i].node)
  }

  /** Every right operand is short enough for its distance to fit in int16. */
  predicate RightOperandsFit(q: Query) {
    match q
    case Val(v) => true
    case Not(a) => RightOperandsFit(a)
    case And(l, r) => RightOperandsFit(l) && RightOperandsFit(r) && Size(r) <= 32767
    case Or(l, r) => RightOperandsFit(l) && RightOperandsFit(r) && Size(r) <= 32767
  }

  /** Fills in the links of the subquery that ends at pos, in place, and
      returns the position just before that subquery. */
  method FindOprnd(ptr: array<Item>, pos: int, ghost q: Query) returns (next: int)
    requires NodesEnd(Nodes(ptr[..]), pos, q)
    modifies ptr
    ensures next == pos - Size(q) && -1 <= next
    ensures LinkedEnd(ptr[..], pos, q)
    ensures Nodes(ptr[..]) == old(Nodes(ptr[..]))
    ensures forall k :: 0 <= k <= next || pos < k < ptr.Length ==> ptr[k] == old(ptr[k])
    decreases pos
  {
    ghost var nodes := Nodes(ptr[..]);
    assert ptr[pos].node == nodes[pos];
    NodesEndReach(nodes, pos, q);
    if ptr[pos].node.NVal? {
      ptr[pos] := ptr[pos].(left := 0);
      next := pos - 1;
    } else if ptr[pos].node.op == '!' {
      ptr[pos] := ptr[pos].(left := -1);
      assert Nodes(ptr[..]) == nodes;
      next := FindOprnd(ptr, pos - 1, q.arg);
    } else {
      next := FindOperands(ptr, pos, q);
    }
    assert Nodes(ptr[..]) == nodes;
  }

  /** The two operands of a binary operator: first the right one, which ends
      just before the operator, then the left one, where the right one began. */
  method FindOperands(ptr: array<Item>, pos: int, ghost q: Query) returns (next: int)
    requires q.And? || q.Or?
    requires NodesEnd(Nodes(ptr[..]), pos, q)
    modifies ptr
    ensures next == pos - Size(q) && -1 <= next
    ensures LinkedEnd(ptr[..], pos, q)
    ensures Nodes(ptr[..]) == old(Nodes(ptr[..]))
    ensures forall k :: 0 <= k <= next || pos < k < ptr.Length ==> ptr[k] == old(ptr[k])
    decreases pos, 0
  {
    hide NodesEnd, LinkedEnd, Int16;
    ghost var nodes := Nodes(ptr[..]);
    OperandsEnd(nodes, pos, q);
    assert ptr[pos].node == nodes[pos];
    var tmp := pos;
    next := FindOprnd(ptr, pos - 1, q.right);
    ghost var once := ptr[..];
    ptr[tmp] := ptr[tmp].(left := Int16(next - tmp));
    assert Nodes(ptr[..]) == nodes;
    next := FindOprnd(ptr, next, q.left);
    LinkedEndFrame(once, ptr[..], pos - 1, q.right);
    OperandsLinked(ptr[..], pos, q);
  }

  lemma OperandsEnd(nodes: seq<Node>, pos: int, q: Query)
    requires (q.And? || q.Or?) && NodesEnd(nodes, pos, q)
    ensures Size(q) - 1 <= pos < |nodes| && nodes[pos] == OperatorItem(q).node
    ensures NodesEnd(nodes, pos - 1, q.right) && NodesEnd(nodes, pos - 1 - Size(q.right), q.left)
  {
    NodesEndReach(nodes, pos, q);
  }

  lemma OperandsLinked(items: seq<Item>, pos: int, q: Query)
    requires (q.And? || q.Or?) && 0 <= pos < |items| && items[pos] == OperatorItem(q)
    requires LinkedEnd(items, pos - 1, q.right) && LinkedEnd(items, pos - 1 - Size(q.right), q.left)
    ensures LinkedEnd(items, pos, q)
  {
  }

  /** Every link is the true distance to the left operand. */
  ghost predicate LinksExact(items: seq<Item>, cur: int, q: Query)
    requires LinkedEnd(items, cur, q)
  {
    match q
    case Val(v) => true
    case Not(a) => LinksExact(items, cur - 1, a)
    case And(l, r) => items[cur].left == -(Size(r) + 1) && LinksExact(items, cur - 1, r) && LinksExact(items, cur - 1 - Size(r), l)
    case Or(l, r) => items[cur].left == -(Size(r) + 1) && LinksExact(items, cur - 1, r) && LinksExact(items, cur - 1 - Size(r), l)
  }

  /** The 16-bit links survive exactly when no right operand exceeds 32767 items. */
  lemma {:induction false} LinksExactIffFit(items: seq<Item>, cur: int, q: Query)
    requires LinkedEnd(items, cur, q)
    ensures LinksExact(items, cur, q) <==> RightOperandsFit(q)
  {
    match q
    case Val(v) =>
    case Not(a) => LinksExactIffFit(items, cur - 1, a);
    case And(l, r) => LinksExactIffFit(items, cur - 1, r); LinksExactIffFit(items, cur - 1 - Size(r), l);
    case Or(l, r) => LinksExactIffFit(items, cur - 1, r); LinksExactIffFit(items, cur - 1 - Size(r), l);
  }

  /** Evaluates the item at cur. The check sees the item's position and value.
      None stands for a link that leaves the items to the left of cur, where
      the original would read outside the query. */
  function Execute(items: seq<Item>, cur: int, calcnot: bool, chk: (int, int) -> bool): Option<bool>
    requires 0 <= cur < |items|
    decreases cur
  {
    match items[cur].node
    case NVal(v) => Some(chk(cur, v))
    case NOpr(op) =>
      if op == '!' then
        if !calcnot then Some(true)
        else if cur == 0 then None
        else match Execute(items, cur - 1, calcnot, chk)
             case None => None
             case Some(b) => Some(!b)
      else if !(0 <= cur + items[cur].left < cur) then None
      else match Execute(items, cur + items[cur].left, calcnot, chk)
           case None => None
           case Some(b) =>
             if op == '&' then
               if b then Execute(items, cur - 1, calcnot, chk) else Some(false)
             else
               if b then Some(true) else Execute(items, cur - 1, calcnot, chk)
  }

  /** With a right operand of 32768 to 65535 items the operator at the end has a link
      that is not negative, so evaluation leaves the query at once. */
  lemma WrappedLinkLeaves(items: seq<Item>, q: Query, calcnot: bool, chk: (int, int) -> bool)
    requires items != [] && LinkedEnd(items, |items| - 1, q) && (q.And? || q.Or?) && 32768 <= Size(q.right) <= 65535
    ensures Execute(items, |items| - 1, calcnot, chk) == None
  {
  }

  /** The check function answers membership of the item's own value. */
  ghost predicate Answers(items: seq<Item>, chk: (int, int) -> bool, holds: int -> bool) {
    forall i :: 0 <= i < |items| && items[i].node.NVal? ==> chk(i, items[i].node.val) == holds(items[i].node.val)
  }

  /** The value an evaluation of q must give. */
  function Meaning(q: Query, calcnot: bool, holds: int -> bool): bool {
    if calcnot then Eval(q, holds) else EvalLossy(q, holds)
  }

  /** Following the links computes the tree's value, wherever the subquery lies. */
  lemma {:induction false} ExecuteMeansEval(items: seq<Item>, cur: int, q: Query, calcnot: bool,
                                            chk: (int, int) -> bool, holds: int -> bool)
    requires LinkedEnd(items, cur, q)
    requires RightOperandsFit(q)
    requires Answers(items, chk, holds)
    ensures Execute(items, cur, calcnot, chk) == Some(Meaning(q, calcnot, holds))
  {
    match q
    case Val(v) =>
    case Not(a) =>
      ExecuteMeansEval(items, cur - 1, a, calcnot, chk, holds);
    case And(l, r) =>
      ExecuteMeansEval(items, cur - 1, r, calcnot, chk, holds);
      ExecuteMeansEval(items, cur - 1 - Size(r), l, calcnot, chk, holds);
    case Or(l, r) =>
      ExecuteMeansEval(items, cur - 1, r, calcnot, chk, holds);
      ExecuteMeansEval(items, cur - 1 - Size(r), l, calcnot, chk, holds);
  }

  /** Evaluation asks about the values of items only. */
  lemma {:induction false} ExecuteSame(items: seq<Item>, cur: int, calcnot: bool, f: (int, int) -> bool, g: (int, int) -> bool)
    requires 0 <= cur < |items|
    requires forall i :: 0 <= i < |items| && items[i].node.NVal? ==> f(i, items[i].node.val) == g(i, items[i].node.val)
    ensures Execute(items, cur, calcnot, f) == Execute(items, cur, calcnot, g)
    decreases cur
  {
    if items[cur].node.NOpr? {
      if cur > 0 { ExecuteSame(items, cur - 1, calcnot, f, g); }
      if 0 <= cur + items[cur].left < cur { ExecuteSame(items, cur + items[cur].left, calcnot, f, g); }
    }
  }

  /** The check of an operator on a row: is the value in it? */
  function RowCheck(holds: int -> bool): (int, int) -> bool {
    (i, v) => holds(v)
  }

  // ----- searching an index with a query ---------------------------------

  /** A lossy evaluation on any over-approximation of a set accepts every query
      that the set itself satisfies: no answer is lost. */
  lemma {:induction false} LossyKeepsAnswers(q: Query, holds: int -> bool, over: int -> bool)
    requires forall v :: v in Vals(q) && holds(v) ==> over(v)
    ensures Eval(q, holds) ==> EvalLossy(q, over)
  {
    match q
    case Val(v) =>
    case Not(a) =>
    case And(l, r) => LossyKeepsAnswers(l, holds, over); LossyKeepsAnswers(r, holds, over);
    case Or(l, r) => LossyKeepsAnswers(l, holds, over); LossyKeepsAnswers(r, holds, over);
  }

  /** Whether every way to satisfy the item at cur needs some listed value. */
  function ContainsRequiredValue(items: seq<Item>, cur: int): Option<bool>
    requires 0 <= cur < |items|
    decreases cur
  {
    match items[cur].node
    case NVal(v) => Some(true)
    case NOpr(op) =>
      if op == '!' then Some(false)
      else if !(0 <= cur + items[cur].left < cur) then None
      else match ContainsRequiredValue(items, cur + items[cur].left)
           case None => None
           case Some(b) =>
             if op == '&' then
               if b then Some(true) else ContainsRequiredValue(items, cur - 1)
             else
               if b then ContainsRequiredValue(items, cur - 1) else Some(false)
  }

  predicate Required(q: Query) {
    match q
    case Val(v) => true
    case Not(a) => false
    case And(l, r) => Required(l) || Required(r)
    case Or(l, r) => Required(l) && Required(r)
  }

  lemma {:induction false} ContainsRequiredValueMeansRequired(items: seq<Item>, cur: int, q: Query)
    requires LinkedEnd(items, cur, q)
    requires RightOperandsFit(q)
    ensures ContainsRequiredValue(items, cur) == Some(Required(q))
  {
    if q.And? || q.Or? {
      ContainsRequiredValueMeansRequired(items, cur - 1, q.right);
      ContainsRequiredValueMeansRequired(items, cur - 1 - Size(q.right), q.left);
    }
  }

  /** A set that satisfies a query with a required value holds one of the query's values. */
  lemma {:induction false} RequiredValueIsPresent(q: Query, holds: int -> bool)
    requires Required(q) && Eval(q, holds)
    ensures exists v :: v in Vals(q) && holds(v)
  {
    match q
    case Val(v) => assert v in Vals(q);
    case And(l, r) =>
      if Required(l) {
        RequiredValueIsPresent(l, holds);
        var v :| v in Vals(l) && holds(v);
        assert v in Vals(q);
      } else {
        RequiredValueIsPresent(r, holds);
        var v :| v in Vals(r) && holds(v);
        assert v in Vals(q);
      }
    case Or(l, r) =>
      if Eval(l, holds) {
        RequiredValueIsPresent(l, holds);
        var v :| v in Vals(l) && holds(v);
        assert v in Vals(q);
      } else {
        RequiredValueIsPresent(r, holds);
        var v :| v in Vals(r) && holds(v);
        assert v in Vals(q);
      }
  }
}
