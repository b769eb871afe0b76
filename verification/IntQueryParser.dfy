/**
 The query_int input function as it runs: one work state updated token by
 token, an operator stack of fixed depth per parenthesis level, and the item
 array filled and linked in place.
 */
module IntQueryParser {
  import opened IntQuery
  import opened IntQueryText

  datatype State = WAITOPERAND | WAITENDOPERAND | WAITOPERATOR

  lemma NumeralRead(t: string, p: nat, e: nat, nnn: string)
    requires p < e <= |t| && |nnn| == e - p && (forall k :: 0 <= k < |nnn| ==> nnn[k] == t[p + k])
    requires (IsDigit(t[p]) || t[p] == '-') && (forall k :: p < k < e ==> IsDigit(t[k]))
    ensures nnn == t[p..e] && IsNumeral(nnn)
  {
  }

  /** s has been read from p on: digits, after a first digit or minus sign. */
  ghost predicate Reading(t: string, p: nat, pos: nat, s: string) {
    && p < pos <= |t| && |s| == pos - p && (forall k :: 0 <= k < |s| ==> s[k] == t[p + k])
    && (IsDigit(t[p]) || t[p] == '-') && (forall k :: p < k < pos ==> IsDigit(t[k]))
    && SkipDigits(t, pos) == SkipDigits(t, p + 1)
  }

  lemma ReadFirst(t: string, p: nat, s: string)
    requires p < |t| && (IsDigit(t[p]) || t[p] == '-') && s == [t[p]]
    ensures Reading(t, p, p + 1, s)
  {
  }

  lemma ReadMore(t: string, p: nat, pos: nat, s: string)
    requires Reading(t, p, pos, s)
    ensures pos < |t| && IsDigit(t[pos]) ==> Reading(t, p, pos + 1, s + [t[pos]])
    ensures |s| == pos - p
  {
  }

  lemma ReadLong(t: string, p: nat, pos: nat, s: string)
    requires Reading(t, p, pos, s)
    ensures p < |t| && (IsDigit(t[p]) || t[p] == '-') && SkipDigits(t, p + 1) - p >= |s|
  {
  }

  lemma SkipsOne(t: string, i: nat)
    requires i <= |t|
    ensures SkipSpaces(t, i) == if i < |t| && t[i] == ' ' then SkipSpaces(t, i + 1) else i
    ensures SkipDigits(t, i) == if i < |t| && IsDigit(t[i]) then SkipDigits(t, i + 1) else i
  {
  }

  datatype Status = Ok | Syntax | Complex

  class WorkState {
    const text: CString
    var pos: nat
    var state: State
    var count: int
    var str: seq<Node>
    var num: int

    constructor (text: CString)
      ensures this.text == text && Valid() && View() == START
    {
      this.text := text;
      pos, state, count, str, num := 0, WAITOPERAND, 0, [], 0;
    }

    ghost predicate Valid()
      reads this
    {
      pos <= |text| && state != WAITENDOPERAND && count >= 0 && num == |str|
    }

    /** The state as the parser's specification sees it. */
    ghost function View(): Work
      reads this
      requires Valid()
    {
      Work(pos, if state == WAITOPERAND then WaitOperand else WaitOperator, count, str)
    }

    /** The current character; NUL at the end of the text. */
    function Peek(): char
      reads this
    {
      if pos < |text| then text[pos] else '\0'
    }

    /** Converts the digits of an operand that has ended. */
    method EndOperand(nnn: string, ghost p: nat, ghost was: Work) returns (tok: Token)
      requires Reading(text, p, pos, nnn) && |nnn| < NUMBER_BUFFER && num == |str| && count >= 0
      requires was.pos <= |text| && was.phase == WaitOperand && was.count == count && was.out == str
      requires p == SkipSpaces(text, was.pos) && pos == SkipDigits(text, pos)
      modifies this`state
      ensures tok == NextToken(text, was).0
      ensures !tok.Err? ==> Valid() && View() == NextToken(text, was).1
    {
      hide StrToL, IsNumeral, SkipSpaces, SkipDigits;
      NumeralRead(text, p, pos, nnn);
      var lval := StrToL(nnn);
      if !IsInt32(lval) {
        return Err;
      }
      state := WAITOPERATOR;
      return if count != 0 && pos == |text| then Err else ValT(lval);
    }

    /** Reads one token. */
    method GetToken() returns (tok: Token)
      requires Valid()
      modifies this
      ensures tok == NextToken(text, old(View())).0
      ensures !tok.Err? ==> Valid() && View() == NextToken(text, old(View())).1
    {
      hide StrToL, IsNumeral, SkipSpaces, SkipDigits, Reading;
      var nnn := new char[NUMBER_BUFFER];
      var innn := 0;
      ghost var p0, p := pos, SkipSpaces(text, pos);
      while true
        invariant pos <= |text| && count == old(count) >= 0 && num == |str| && str == old(str)
        invariant state != WAITENDOPERAND ==> state == old(state) && innn == 0 && SkipSpaces(text, pos) == p
        invariant state == WAITENDOPERAND ==>
                    old(state) == WAITOPERAND && 0 < innn <= NUMBER_BUFFER && Reading(text, p, pos, nnn[..innn])
        decreases |text| - pos
      {
        if innn >= NUMBER_BUFFER {
          ReadLong(text, p, pos, nnn[..innn]);
          return Err;
        }
        var c := Peek();
        SkipsOne(text, pos);
        match state {
          case WAITOPERAND =>
            innn := 0;
            if IsDigit(c) || c == '-' {
              state := WAITENDOPERAND;
              nnn[innn] := c;
              innn := innn + 1;
              ReadFirst(text, p, nnn[..innn]);
            } else if c == '!' {
              pos := pos + 1;
              return Opr('!');
            } else if c == '(' {
              count := count + 1;
              pos := pos + 1;
              return Open;
            } else if c != ' ' {
              return Err;
            }
          case WAITENDOPERAND =>
            if IsDigit(c) {
              ReadMore(text, p, pos, nnn[..innn]);
              nnn[innn] := c;
              innn := innn + 1;
              assert nnn[..innn] == nnn[..innn - 1] + [c];
            } else {
              tok := EndOperand(nnn[..innn], p, old(View()));
              return;
            }
          case WAITOPERATOR =>
            if c == '&' || c == '|' {
              state := WAITOPERAND;
              pos := pos + 1;
              return Opr(c);
            } else if c == ')' {
              pos := pos + 1;
              count := count - 1;
              return if count < 0 then Err else Close;
            } else if pos == |text| {
              return if count != 0 then Err else End;
            } else if c != ' ' {
              return Err;
            }
        }
        pos := pos + 1;
      }
    }

    method PushQuery(node: Node)
      requires Valid()
      modifies this`str, this`num
      ensures Valid() && View() == old(View()).(out := old(str) + [node])
    {
      str := str + [node];
      num := num + 1;
    }

    /** Pops the run of '&' and '!' on top of the stack into the output. */
    method PopTight(stack: array<char>, lenstack: nat) returns (len: nat)
      requires Valid() && lenstack <= stack.Length
      modifies this`str, this`num
      ensures Valid() && len <= lenstack
      ensures stack[..len] == Keep(stack[..lenstack])
      ensures View() == old(View()).(out := old(str) + Pops(stack[..lenstack]))
    {
      len := lenstack;
      while len > 0 && BindsTight(stack[len - 1])
        invariant Valid() && len <= lenstack
        invariant Keep(stack[..len]) == Keep(stack[..lenstack])
        invariant View() == old(View()).(out := str)
        invariant str + Pops(stack[..len]) == old(str) + Pops(stack[..lenstack])
      {
        assert stack[..len][..len - 1] == stack[..len - 1];
        len := len - 1;
        PushQuery(NOpr(stack[len]));
      }
    }

    /** Pops the whole stack into the output. */
    method PopAll(stack: array<char>, lenstack: nat)
      requires Valid() && lenstack <= stack.Length
      modifies this`str, this`num
      ensures Valid() && View() == old(View()).(out := old(str) + Drain(stack[..lenstack]))
    {
      var len := lenstack;
      while len > 0
        invariant Valid() && 0 <= len <= lenstack
        invariant View() == old(View()).(out := str)
        invariant str + Drain(stack[..len]) == old(str) + Drain(stack[..lenstack])
      {
        assert stack[..len][..len - 1] == stack[..len - 1];
        len := len - 1;
        PushQuery(NOpr(stack[len]));
      }
      assert stack[..len] == [];
    }

    /** Reads up to the closing ')' or the end of the text, pushing the postfix
        form of what it reads. */
    method MakePol() returns (r: Status)
      requires Valid()
      modifies this
      ensures match Pol(text, old(View()), [])
              case Done(w) => r == Ok && Valid() && View() == w
              case SyntaxError => r == Syntax
              case TooComplex => r == Complex
      decreases |text| - pos
    {
      hide Pol, NextToken, Pops, Keep, Drain;
      ghost var goal := Pol(text, View(), []);
      var stack := new char[STACKDEPTH];
      var lenstack := 0;
      assert stack[..lenstack] == [];
      while true
        invariant Valid() && 0 <= lenstack <= STACKDEPTH && old(pos) <= pos
        invariant Pol(text, View(), stack[..lenstack]) == goal
        decreases |text| - pos
      {
        ghost var w, st := View(), stack[..lenstack];
        var tok := GetToken();
        StepErr(text, w, st);
        ghost var w1 := NextToken(text, w).1;
        match tok {
          case End =>
            StepClose(text, w, st, w1);
            PopAll(stack, lenstack);
            return Ok;
          case ValT(v) =>
            StepVal(text, w, st, v, w1);
            PushQuery(NVal(v));
            lenstack := PopTight(stack, lenstack);
          case Opr(op) =>
            if lenstack > 0 && op == '|' {
              StepBar(text, w, st, w1);
              PushQuery(NOpr(op));
            } else {
              if lenstack == STACKDEPTH {
                return Complex;
              }
              StepPush(text, w, st, op, w1);
              stack[lenstack] := op;
              lenstack := lenstack + 1;
              assert stack[..lenstack] == st + [op];
            }
          case Open =>
            r := MakePol();
            if r != Ok {
              return;
            }
            StepOpen(text, w, st, w1, View());
            assert View().out + [] == View().out;
            lenstack := PopTight(stack, lenstack);
          case Close =>
            StepClose(text, w, st, w1);
            PopAll(stack, lenstack);
            return Ok;
          case Err =>
            return Syntax;
        }
      }
    }
  }

  const QUERYTYPEMAXITEMS: nat := 134217726

  datatype InResult = Parsed(items: seq<Item>) | SyntaxErr | TooComplexErr | TooManyItems

  /** The items are those of a query the text spells, fully linked. */
  ghost predicate HoldsQuery(t: string, s: Syn, items: seq<Item>) {
    IsQueryText(t, s) && |items| == Size(Abs(s)) && LinkedEnd(items, |items| - 1, Abs(s))
  }

  /** The parse result fits the grammar: exactly the texts of the grammar are
      parsed, into the linked items of their tree, unless they are too long. */
  ghost predicate FollowsGrammar(buf: string, r: InResult) {
    && (r.Parsed? ==> exists s :: HoldsQuery(buf, s, r.items) && Size(Abs(s)) <= QUERYTYPEMAXITEMS)
    && (r.TooManyItems? ==> exists s :: IsQueryText(buf, s) && Size(Abs(s)) > QUERYTYPEMAXITEMS)
    && (r.SyntaxErr? || r.TooComplexErr? ==> forall s :: !IsQueryText(buf, s))
  }

  /** Parses a query text into a linked item array. */
  method BqarrIn(buf: CString) returns (r: InResult)
    ensures FollowsGrammar(buf, r)
  {
    hide Pol, NextToken, LinkedEnd, NodesEnd, IsQueryText;
    var state := new WorkState(buf);
    var status := state.MakePol();
    if status != Ok {
      NotQueryText(buf);
      return if status == Syntax then SyntaxErr else TooComplexErr;
    }
    ghost var s := ParsedIsQueryText(buf);
    QueryTextParses(buf, s);
    if state.num > QUERYTYPEMAXITEMS {
      assert IsQueryText(buf, s) && Size(Abs(s)) > QUERYTYPEMAXITEMS;
      return TooManyItems;
    }
    var items := LinkItems(state.str, Abs(s));
    assert HoldsQuery(buf, s, items);
    return Parsed(items);
  }

  lemma NotQueryText(buf: string)
    requires !Pol(buf, START, []).Done?
    ensures forall s :: !IsQueryText(buf, s)
  {
    hide Pol, IsQueryText;
    forall s ensures !IsQueryText(buf, s) {
      if IsQueryText(buf, s) { QueryTextParses(buf, s); }
    }
  }

  /** Copies the pushed nodes into an array and links it. */
  method LinkItems(str: seq<Node>, ghost q: Query) returns (items: seq<Item>)
    requires str == Postfix(q)
    ensures |items| == Size(q) && LinkedEnd(items, |items| - 1, q)
  {
    hide NodesEnd, LinkedEnd, Postfix;
    var ptr := new Item[|str|](_ => Item(NVal(0), 0));
    for i := 0 to |str|
      invariant forall k :: 0 <= k < i ==> ptr[k].node == str[k]
    {
      ptr[i] := Item(str[i], 0);
    }
    ghost var filled := ptr[..];
    assert forall k :: 0 <= k < |filled| ==> filled[k].node == str[k];
    assert Nodes(filled) == str;
    PostfixAlone(q);
    var pos := FindOprnd(ptr, |str| - 1, q);
    items := ptr[..];
  }

  /** The grammar is unambiguous: a text has one meaning. */
  lemma OneMeaning(buf: string, s: Syn, s': Syn)
    requires IsQueryText(buf, s) && IsQueryText(buf, s')
    ensures Abs(s) == Abs(s')
  {
    hide Pol, IsQueryText, NodesEnd;
    QueryTextParses(buf, s);
    QueryTextParses(buf, s');
    PostfixAlone(Abs(s));
    PostfixAlone(Abs(s'));
    var nodes := Postfix(Abs(s));
    NodesEndUnique(nodes, |nodes| - 1, Abs(s), Abs(s'));
  }

  /** Whatever text was parsed, evaluating its items gives the truth value that
      the grammar assigns, on every array and through every check function that
      answers membership. */
  lemma ParsedQueryMeans(buf: string, s: Syn, items: seq<Item>, calcnot: bool, chk: (int, int) -> bool,
                         holds: int -> bool)
    requires HoldsQuery(buf, s, items) && RightOperandsFit(Abs(s)) && Answers(items, chk, holds)
    ensures Execute(items, |items| - 1, calcnot, chk) == Some(Meaning(Abs(s), calcnot, holds))
  {
    ExecuteMeansEval(items, |items| - 1, Abs(s), calcnot, chk, holds);
  }
}
