/**
 The text form of a boolean query: the tokeniser and the operator-stack parser
 that turn it into postfix, proved against a grammar in which '!' binds
 tighter than '&', '&' tighter than '|', and both are left associative.
 */
module IntQueryText {
  import opened IntQuery

  /** A C string: the terminating NUL is not part of it. */
  type CString = s: string | '\0' !in s

  const STACKDEPTH: nat := 16
  const NUMBER_BUFFER: nat := 16
  const INT32_MIN := -0x8000_0000
  const INT32_MAX := 0x7fff_ffff

  predicate IsDigit(c: char) { '0' <= c <= '9' }

  predicate IsInt32(v: int) { INT32_MIN <= v <= INT32_MAX }

  // ----- numbers -----------------------------------------------------------

  function DigitValue(c: char): (d: int)
    requires IsDigit(c)
    ensures 0 <= d <= 9
  {
    c as int - '0' as int
  }

  /** Digits read in the given base, stopping at the first that is too large. */
  function ReadDigits(ds: string, base: nat, acc: nat): nat
    requires forall c :: c in ds ==> IsDigit(c)
  {
    if ds == [] || DigitValue(ds[0]) >= base then acc
    else ReadDigits(ds[1..], base, acc * base + DigitValue(ds[0]))
  }

  function Magnitude(ds: string): nat
    requires forall c :: c in ds ==> IsDigit(c)
  {
    ReadDigits(ds, if ds != [] && ds[0] == '0' then 8 else 10, 0)
  }

  /** strtol with base 0 on an optional sign and digits; no digits give 0. */
  function StrToL(s: string): int
    requires IsNumeral(s)
  {
    if s[0] == '-' then -(Magnitude(s[1..]) as int) else Magnitude(s)
  }

  predicate IsNumeral(s: string) {
    s != [] && (IsDigit(s[0]) || s[0] == '-') && forall k :: 0 < k < |s| ==> IsDigit(s[k])
  }

  // ----- tokens ------------------------------------------------------------

  datatype Phase = WaitOperand | WaitOperator

  datatype Token = End | Err | ValT(val: int) | Opr(op: char) | Open | Close

  function SkipSpaces(t: string, i: nat): (j: nat)
    requires i <= |t|
    ensures i <= j <= |t| && (forall k :: i <= k < j ==> t[k] == ' ') && (j < |t| ==> t[j] != ' ')
    decreases |t| - i
  {
    if i < |t| && t[i] == ' ' then SkipSpaces(t, i + 1) else i
  }

  function SkipDigits(t: string, i: nat): (j: nat)
    requires i <= |t|
    ensures i <= j <= |t| && (forall k :: i <= k < j ==> IsDigit(t[k])) && (j < |t| ==> !IsDigit(t[j]))
    decreases |t| - i
  {
    if i < |t| && IsDigit(t[i]) then SkipDigits(t, i + 1) else i
  }

  /** The parser's position in the text, its expectation, its parenthesis depth
      and the nodes pushed so far. */
  datatype Work = Work(pos: nat, phase: Phase, count: nat, out: seq<Node>)

  /** The next token and the work state after reading it. */
  function NextToken(t: string, w: Work): (r: (Token, Work))
    requires w.pos <= |t|
    ensures w.pos <= r.1.pos <= |t| && r.1.out == w.out
    ensures r.0 != End && r.0 != Err ==> w.pos < r.1.pos
  {
    var p := SkipSpaces(t, w.pos);
    if w.phase == WaitOperand then
      if p == |t| then (Err, w)
      else if IsDigit(t[p]) || t[p] == '-' then
        var e := SkipDigits(t, p + 1);
        if e - p >= NUMBER_BUFFER then (Err, w)
        else
          var v := StrToL(t[p..e]);
          if !IsInt32(v) || (w.count != 0 && e == |t|) then (Err, w)
          else (ValT(v), w.(pos := e, phase := WaitOperator))
      else if t[p] == '!' then (Opr('!'), w.(pos := p + 1))
      else if t[p] == '(' then (Open, w.(pos := p + 1, count := w.count + 1))
      else (Err, w)
    else
      if p == |t| then (if w.count != 0 then (Err, w) else (End, w.(pos := p)))
      else if t[p] == '&' || t[p] == '|' then (Opr(t[p]), w.(pos := p + 1, phase := WaitOperand))
      else if t[p] == ')' then (if w.count == 0 then (Err, w) else (Close, w.(pos := p + 1, count := w.count - 1)))
      else (Err, w)
  }

  // ----- the operator stack ------------------------------------------------

  predicate BindsTight(c: char) { c == '&' || c == '!' }

  /** The stack after its run of '&' and '!' is popped. */
  function Keep(stack: seq<char>): seq<char> {
    if stack != [] && BindsTight(stack[|stack| - 1]) then Keep(stack[..|stack| - 1]) else stack
  }

  /** The operators that run pushes, last in first out. */
  function Pops(stack: seq<char>): seq<Node> {
    if stack != [] && BindsTight(stack[|stack| - 1])
    then [NOpr(stack[|stack| - 1])] + Pops(stack[..|stack| - 1])
    else []
  }

  function Drain(stack: seq<char>): seq<Node> {
    if stack == [] then [] else [NOpr(stack[|stack| - 1])] + Drain(stack[..|stack| - 1])
  }

  datatype PolResult = Done(w: Work) | SyntaxError | TooComplex

  function Operand(w: Work, nodes: seq<Node>, stack: seq<char>): Work {
    w.(out := w.out + nodes + Pops(stack))
  }

  /** What makepol computes from a work state and its own operator stack. */
  function Pol(t: string, w: Work, stack: seq<char>): (r: PolResult)
    requires w.pos <= |t|
    ensures r.Done? ==> w.pos <= r.w.pos <= |t|
    decreases |t| - w.pos
  {
    var (tok, w1) := NextToken(t, w);
    match tok
    case End => Done(w1.(out := w1.out + Drain(stack)))
    case Err => SyntaxError
    case ValT(v) => Pol(t, Operand(w1, [NVal(v)], stack), Keep(stack))
    case Opr(op) =>
      if stack != [] && op == '|' then Pol(t, w1.(out := w1.out + [NOpr(op)]), stack)
      else if |stack| == STACKDEPTH then TooComplex
      else Pol(t, w1, stack + [op])
    case Open =>
      (match Pol(t, w1, [])
       case Done(w2) => Pol(t, Operand(w2, [], stack), Keep(stack))
       case err => err)
    case Close => Done(w1.(out := w1.out + Drain(stack)))
  }

  // ----- the grammar -------------------------------------------------------

  /** Concrete syntax. Each token carries the number of spaces before it. */
  datatype Syn =
    | Num(sp: nat, n: nat, v: int)
    | Bang(sp: nat, arg: Syn)
    | Paren(sp: nat, body: Syn, sp2: nat)
    | Amp(left: Syn, sp: nat, right: Syn)
    | Bar(left: Syn, sp: nat, right: Syn)

  function Len(s: Syn): nat {
    match s
    case Num(sp, n, v) => sp + n
    case Bang(sp, a) => sp + 1 + Len(a)
    case Paren(sp, b, sp2) => sp + 1 + Len(b) + sp2 + 1
    case Amp(l, sp, r) => Len(l) + sp + 1 + Len(r)
    case Bar(l, sp, r) => Len(l) + sp + 1 + Len(r)
  }

  /** The text at pos is sp spaces and then the character c. */
  predicate TokenAt(t: string, pos: nat, sp: nat, c: char) {
    pos + sp < |t| && t[pos + sp] == c && forall k :: pos <= k < pos + sp ==> t[k] == ' '
  }

  /** The text at pos is sp spaces and then a numeral of n characters worth v. */
  predicate NumberAt(t: string, pos: nat, sp: nat, n: nat, v: int) {
    var p := pos + sp;
    && 0 < n < NUMBER_BUFFER && p + n <= |t|
    && (forall k :: pos <= k < p ==> t[k] == ' ')
    && IsNumeral(t[p..p + n]) && (p + n < |t| ==> !IsDigit(t[p + n]))
    && v == StrToL(t[p..p + n]) && IsInt32(v)
  }

  /** The text from pos on, for Len(s) characters, is written as s. */
  predicate Spells(t: string, pos: nat, s: Syn)
    decreases s
  {
    match s
    case Num(sp, n, v) => NumberAt(t, pos, sp, n, v)
    case Bang(sp, a) => TokenAt(t, pos, sp, '!') && Spells(t, pos + sp + 1, a)
    case Paren(sp, b, sp2) =>
      && TokenAt(t, pos, sp, '(') && Spells(t, pos + sp + 1, b)
      && TokenAt(t, pos + sp + 1 + Len(b), sp2, ')')
    case Amp(l, sp, r) =>
      Spells(t, pos, l) && TokenAt(t, pos + Len(l), sp, '&') && Spells(t, pos + Len(l) + sp + 1, r)
    case Bar(l, sp, r) =>
      Spells(t, pos, l) && TokenAt(t, pos + Len(l), sp, '|') && Spells(t, pos + Len(l) + sp + 1, r)
  }

  /** Precedence: factor (0), conjunction (1), disjunction (2). */
  predicate Level(s: Syn, lvl: nat) {
    match s
    case Num(_, _, _) => true
    case Bang(_, a) => Level(a, 0)
    case Paren(_, b, _) => Level(b, 2)
    case Amp(l, _, r) => lvl >= 1 && Level(l, 1) && Level(r, 0)
    case Bar(l, _, r) => lvl >= 2 && Level(l, 2) && Level(r, 1)
  }

  function Abs(s: Syn): Query {
    match s
    case Num(_, _, v) => Val(v)
    case Bang(_, a) => Not(Abs(a))
    case Paren(_, b, _) => Abs(b)
    case Amp(l, _, r) => And(Abs(l), Abs(r))
    case Bar(l, _, r) => Or(Abs(l), Abs(r))
  }

  /** Starting with the given stack height, no operator is pushed on a full stack. */
  predicate Fits(s: Syn, height: nat) {
    match s
    case Num(_, _, _) => true
    case Bang(_, a) => height < STACKDEPTH && Fits(a, height + 1)
    case Paren(_, b, _) => Fits(b, 0)
    case Amp(l, _, r) => Fits(l, height) && height < STACKDEPTH && Fits(r, height + 1)
    case Bar(l, _, r) => Fits(l, 0) && Fits(r, 1)
  }

  // ----- every well-formed text is parsed ----------------------------------

  lemma SkipTo(t: string, pos: nat, sp: nat)
    requires pos + sp <= |t| && (forall k :: pos <= k < pos + sp ==> t[k] == ' ')
    requires pos + sp < |t| ==> t[pos + sp] != ' '
    ensures SkipSpaces(t, pos) == pos + sp
  {
  }

  lemma SkipDigitsTo(t: string, i: nat, j: nat)
    requires i <= j <= |t| && (forall k :: i <= k < j ==> IsDigit(t[k]))
    requires j < |t| ==> !IsDigit(t[j])
    ensures SkipDigits(t, i) == j
  {
  }

  lemma NumberToken(t: string, w: Work, sp: nat, n: nat, v: int)
    requires w.pos <= |t| && w.phase == WaitOperand && NumberAt(t, w.pos, sp, n, v)
    requires w.count != 0 ==> w.pos + sp + n < |t|
    ensures NextToken(t, w) == (ValT(v), w.(pos := w.pos + sp + n, phase := WaitOperator))
  {
    var p := w.pos + sp;
    var num := t[p..p + n];
    assert t[p] == num[0];
    SkipTo(t, w.pos, sp);
    forall k | p + 1 <= k < p + n ensures IsDigit(t[k]) {
      assert 0 < k - p < |num| && t[k] == num[k - p];
    }
    SkipDigitsTo(t, p + 1, p + n);
  }

  /** A character token after spaces. */
  lemma CharToken(t: string, w: Work, sp: nat, c: char)
    requires w.pos <= |t| && TokenAt(t, w.pos, sp, c)
    ensures w.phase == WaitOperand && c == '!' ==> NextToken(t, w) == (Opr('!'), w.(pos := w.pos + sp + 1))
    ensures w.phase == WaitOperand && c == '(' ==>
              NextToken(t, w) == (Open, w.(pos := w.pos + sp + 1, count := w.count + 1))
    ensures w.phase == WaitOperator && (c == '&' || c == '|') ==>
              NextToken(t, w) == (Opr(c), w.(pos := w.pos + sp + 1, phase := WaitOperand))
    ensures w.phase == WaitOperator && c == ')' && w.count > 0 ==>
              NextToken(t, w) == (Close, w.(pos := w.pos + sp + 1, count := w.count - 1))
  {
    if c != ' ' { SkipTo(t, w.pos, sp); }
  }

  // One token of makepol at a time.

  lemma StepVal(t: string, w: Work, stack: seq<char>, v: int, w1: Work)
    requires w.pos <= |t| && NextToken(t, w) == (ValT(v), w1)
    ensures Pol(t, w, stack) == Pol(t, Operand(w1, [NVal(v)], stack), Keep(stack))
  {
    hide NextToken;
  }

  lemma StepPush(t: string, w: Work, stack: seq<char>, op: char, w1: Work)
    requires w.pos <= |t| && NextToken(t, w) == (Opr(op), w1)
    requires |stack| < STACKDEPTH && (stack == [] || op != '|')
    ensures Pol(t, w, stack) == Pol(t, w1, stack + [op])
  {
    hide NextToken;
  }

  lemma StepBar(t: string, w: Work, stack: seq<char>, w1: Work)
    requires w.pos <= |t| && NextToken(t, w) == (Opr('|'), w1) && stack != []
    ensures Pol(t, w, stack) == Pol(t, w1.(out := w1.out + [NOpr('|')]), stack)
  {
    hide NextToken;
  }

  lemma StepOpen(t: string, w: Work, stack: seq<char>, w1: Work, w2: Work)
    requires w.pos <= |t| && NextToken(t, w) == (Open, w1) && Pol(t, w1, []) == Done(w2)
    ensures Pol(t, w, stack) == Pol(t, Operand(w2, [], stack), Keep(stack))
  {
    hide NextToken, Keep, Pops, Drain, Operand;
  }

  lemma StepClose(t: string, w: Work, stack: seq<char>, w1: Work)
    requires w.pos <= |t| && (NextToken(t, w) == (Close, w1) || NextToken(t, w) == (End, w1))
    ensures Pol(t, w, stack) == Done(w1.(out := w1.out + Drain(stack)))
  {
    hide NextToken;
  }

  lemma StepErr(t: string, w: Work, stack: seq<char>)
    requires w.pos <= |t|
    ensures NextToken(t, w).0.Err? ==> Pol(t, w, stack) == SyntaxError
    ensures NextToken(t, w).0.Opr? && |stack| == STACKDEPTH && NextToken(t, w).0.op != '|' ==>
              Pol(t, w, stack) == TooComplex
    ensures NextToken(t, w).0.Open? && !Pol(t, NextToken(t, w).1, []).Done? ==>
              Pol(t, w, stack) == Pol(t, NextToken(t, w).1, [])
  {
    hide NextToken, Keep, Pops, Drain, Operand;
  }

  /** The work state after s has been read and nodes pushed. */
  function After(w: Work, s: Syn, nodes: seq<Node>): Work {
    Work(w.pos + Len(s), WaitOperator, w.count, w.out + nodes)
  }

  /** s lies ahead, entirely inside the text, and a ')' follows if one is due. */
  predicate Ahead(t: string, w: Work, s: Syn) {
    && w.phase == WaitOperand && Spells(t, w.pos, s)
    && w.pos + Len(s) <= |t| && (w.count != 0 ==> w.pos + Len(s) < |t|)
  }

  /** A factor is consumed whole: its postfix form is pushed, then the pending
      '&' and '!' that it completes. */
  lemma {:induction false} RunFactor(t: string, w: Work, stack: seq<char>, s: Syn)
    requires Ahead(t, w, s) && Level(s, 0) && Fits(s, |stack|)
    ensures Pol(t, w, stack) == Pol(t, After(w, s, Postfix(Abs(s)) + Pops(stack)), Keep(stack))
    decreases s, 0
  {
    hide Pol, NextToken;
    match s
    case Num(sp, n, v) =>
      var w1 := w.(pos := w.pos + sp + n, phase := WaitOperator);
      NumberToken(t, w, sp, n, v);
      StepVal(t, w, stack, v, w1);
      assert w1.out + [NVal(v)] + Pops(stack) == w.out + ([NVal(v)] + Pops(stack));
    case Bang(sp, a) =>
      var w1 := w.(pos := w.pos + sp + 1);
      CharToken(t, w, sp, '!');
      StepPush(t, w, stack, '!', w1);
      RunFactor(t, w1, stack + ['!'], a);
      PushedBang(stack);
      assert Postfix(Abs(a)) + ([NOpr('!')] + Pops(stack)) == Postfix(Abs(a)) + [NOpr('!')] + Pops(stack);
    case Paren(sp, b, sp2) =>
      RunParen(t, w, stack, s);
  }

  lemma {:induction false} RunParen(t: string, w: Work, stack: seq<char>, s: Syn)
    requires Ahead(t, w, s) && Level(s, 0) && Fits(s, |stack|) && s.Paren?
    ensures Pol(t, w, stack) == Pol(t, After(w, s, Postfix(Abs(s)) + Pops(stack)), Keep(stack))
    decreases s.body, 4
  {
    hide Pol, NextToken, Postfix;
    var Paren(sp, b, sp2) := s;
    var w1 := w.(pos := w.pos + sp + 1, count := w.count + 1);
    CharToken(t, w, sp, '(');
    RunBody(t, w1, b, sp2);
    var w2 := After(w1, b, Postfix(Abs(b))).(pos := w1.pos + Len(b) + sp2 + 1, count := w.count);
    StepOpen(t, w, stack, w1, w2);
    assert w2.out + [] + Pops(stack) == w.out + (Postfix(Abs(b)) + Pops(stack));
  }

  lemma PushedBang(stack: seq<char>)
    ensures Pops(stack + ['!']) == [NOpr('!')] + Pops(stack) && Keep(stack + ['!']) == Keep(stack)
  {
    assert (stack + ['!'])[..|stack|] == stack;
  }

  /** Inside parentheses: everything up to the ')' and the drained stack. */
  lemma {:induction false} RunBody(t: string, w: Work, b: Syn, sp2: nat)
    requires Ahead(t, w, b) && Level(b, 2) && Fits(b, 0)
    requires w.count > 0 && TokenAt(t, w.pos + Len(b), sp2, ')')
    ensures Pol(t, w, []) == Done(After(w, b, Postfix(Abs(b))).(pos := w.pos + Len(b) + sp2 + 1, count := w.count - 1))
    decreases b, 3
  {
    hide Pol, NextToken;
    RunExpr(t, w, b);
    var w2 := After(w, b, Emitted(b));
    CharToken(t, w2, sp2, ')');
    StepClose(t, w2, Pending(b), w2.(pos := w2.pos + sp2 + 1, count := w.count - 1));
    EmittedThenPending(w.out, b);
  }

  /** What a disjunction has pushed once read: all but its last '|'. */
  function Emitted(s: Syn): seq<Node> {
    if s.Bar? then Postfix(Abs(s.left)) + Postfix(Abs(s.right)) else Postfix(Abs(s))
  }

  function Pending(s: Syn): seq<char> {
    if s.Bar? then ['|'] else []
  }

  lemma EmittedThenPending(out: seq<Node>, s: Syn)
    ensures out + Emitted(s) + Drain(Pending(s)) == out + Postfix(Abs(s))
    ensures s.Bar? ==> out + Emitted(s) + [NOpr('|')] == out + Postfix(Abs(s))
  {
    if s.Bar? {
      assert Drain(['|']) == [NOpr('|')] + Drain([]);
      assert out + (Postfix(Abs(s.left)) + Postfix(Abs(s.right))) + [NOpr('|')]
          == out + (Postfix(Abs(s.left)) + Postfix(Abs(s.right)) + [NOpr('|')]);
    }
  }

  lemma {:induction false} RunTerm(t: string, w: Work, stack: seq<char>, s: Syn)
    requires Ahead(t, w, s) && Level(s, 1) && Fits(s, |stack|)
    requires stack == [] || stack == ['|']
    ensures Pol(t, w, stack) == Pol(t, After(w, s, Postfix(Abs(s))), stack)
    decreases s, 1
  {
    hide Pol, NextToken, Ahead, Fits, Level;
    if s.Amp? {
      AmpParts(t, w, s, |stack|, w.out + Postfix(Abs(s.left)));
      RunTerm(t, w, stack, s.left);
      var w1 := After(w, s.left, Postfix(Abs(s.left)));
      var w2 := w1.(pos := w1.pos + s.sp + 1, phase := WaitOperand);
      CharToken(t, w1, s.sp, '&');
      StepPush(t, w1, stack, '&', w2);
      RunFactor(t, w2, stack + ['&'], s.right);
      PushedAmp(stack);
      Regroup(w.out, Postfix(Abs(s.left)), Postfix(Abs(s.right)), [NOpr('&')]);
    } else {
      FactorLevel(s);
      RunFactor(t, w, stack, s);
      assert Postfix(Abs(s)) + [] == Postfix(Abs(s));
    }
  }

  lemma AmpParts(t: string, w: Work, s: Syn, height: nat, out: seq<Node>)
    requires Ahead(t, w, s) && Level(s, 1) && Fits(s, height) && s.Amp?
    ensures Ahead(t, w, s.left) && Level(s.left, 1) && Fits(s.left, height) && height < STACKDEPTH
    ensures w.pos + Len(s.left) + s.sp + 1 <= |t| && TokenAt(t, w.pos + Len(s.left), s.sp, '&')
    ensures Ahead(t, Work(w.pos + Len(s.left) + s.sp + 1, WaitOperand, w.count, out), s.right)
    ensures Level(s.right, 0) && Fits(s.right, height + 1)
  {
  }

  lemma FactorLevel(s: Syn)
    requires Level(s, 1) && !s.Amp?
    ensures Level(s, 0)
  {
  }

  lemma Regroup(a: seq<Node>, b: seq<Node>, c: seq<Node>, d: seq<Node>)
    ensures a + b + (c + d) == a + (b + c + d)
  {
  }

  lemma PushedAmp(stack: seq<char>)
    requires stack == [] || stack == ['|']
    ensures Pops(stack + ['&']) == [NOpr('&')] && Keep(stack + ['&']) == stack
  {
    assert (stack + ['&'])[..|stack|] == stack;
  }

  lemma {:induction false} RunExpr(t: string, w: Work, s: Syn)
    requires Ahead(t, w, s) && Level(s, 2) && Fits(s, 0)
    ensures Pol(t, w, []) == Pol(t, After(w, s, Emitted(s)), Pending(s))
    decreases s, 2
  {
    hide Pol, NextToken;
    if s.Bar? {
      RunExpr(t, w, s.left);
      var w1 := After(w, s.left, Emitted(s.left));
      var w2 := w1.(pos := w1.pos + s.sp + 1, phase := WaitOperand, out := w.out + Postfix(Abs(s.left)));
      RunBar(t, w, w1, s, w2);
      RunTerm(t, w2, ['|'], s.right);
      assert w.out + Postfix(Abs(s.left)) + Postfix(Abs(s.right))
          == w.out + (Postfix(Abs(s.left)) + Postfix(Abs(s.right)));
    } else {
      RunTerm(t, w, [], s);
    }
  }

  /** Reading '|': a pending '|' is pushed out, otherwise the new one waits. */
  lemma RunBar(t: string, w: Work, w1: Work, s: Syn, w2: Work)
    requires s.Bar? && w1 == After(w, s.left, Emitted(s.left)) && TokenAt(t, w1.pos, s.sp, '|') && w1.pos <= |t|
    requires w2 == w1.(pos := w1.pos + s.sp + 1, phase := WaitOperand, out := w.out + Postfix(Abs(s.left)))
    ensures Pol(t, w1, Pending(s.left)) == Pol(t, w2, ['|'])
  {
    hide Pol, NextToken;
    CharToken(t, w1, s.sp, '|');
    var w' := w1.(pos := w1.pos + s.sp + 1, phase := WaitOperand);
    if s.left.Bar? {
      StepBar(t, w1, ['|'], w');
      EmittedThenPending(w.out, s.left);
    } else {
      StepPush(t, w1, [], '|', w');
      assert [] + ['|'] == ['|'];
    }
  }

  // ----- every accepted text is well formed --------------------------------

  /** Spaces before the next token. */
  function Gap(t: string, pos: nat): nat
    requires pos <= |t|
  {
    SkipSpaces(t, pos) - pos
  }

  /** What each token says about the text it was read from. */
  lemma TokenRead(t: string, w: Work)
    requires w.pos <= |t|
    ensures var (tok, w1) := NextToken(t, w); var sp := Gap(t, w.pos);
            && (tok.ValT? ==>
                  && w.phase == WaitOperand && w.pos + sp <= w1.pos && (w.count != 0 ==> w1.pos < |t|)
                  && NumberAt(t, w.pos, sp, w1.pos - w.pos - sp, tok.val)
                  && w1 == w.(pos := w1.pos, phase := WaitOperator))
            && (tok.Opr? ==> TokenAt(t, w.pos, sp, tok.op) && w1 == w.(pos := w.pos + sp + 1, phase := WaitOperand))
            && (tok.Opr? ==> if w.phase == WaitOperand then tok.op == '!' else tok.op == '&' || tok.op == '|')
            && (tok.Open? ==> w.phase == WaitOperand && TokenAt(t, w.pos, sp, '(')
                              && w1 == w.(pos := w.pos + sp + 1, count := w.count + 1))
            && (tok.Close? ==> w.phase == WaitOperator && w.count > 0 && TokenAt(t, w.pos, sp, ')')
                               && w1 == w.(pos := w.pos + sp + 1, count := w.count - 1))
            && (tok.End? ==> w.phase == WaitOperator && w.count == 0 && w1 == w.(pos := |t|) && w.pos + sp == |t|)
            && (w.pos == |t| && w.count != 0 ==> tok == Err)
  {
    var p := SkipSpaces(t, w.pos);
    if p < |t| && w.phase == WaitOperand && (IsDigit(t[p]) || t[p] == '-') {
      var e := SkipDigits(t, p + 1);
      var num := t[p..e];
      assert num[0] == t[p];
      assert forall k :: 0 < k < |num| ==> num[k] == t[p + k];
    }
  }

  /** A successful parse reads a factor first. */
  lemma {:induction false} FactorFound(t: string, w: Work, stack: seq<char>) returns (s: Syn)
    requires w.pos <= |t| && w.phase == WaitOperand && Pol(t, w, stack).Done? && |stack| <= STACKDEPTH
    ensures Ahead(t, w, s) && Level(s, 0) && Fits(s, |stack|) && Len(s) > 0
    ensures Pol(t, w, stack) == Pol(t, After(w, s, Postfix(Abs(s)) + Pops(stack)), Keep(stack))
    decreases |t| - w.pos, 0
  {
    hide NextToken, Pol, Gap, TokenAt, NumberAt;
    var (tok, w1) := NextToken(t, w);
    DoneMeans(t, w, stack);
    TokenRead(t, w);
    var sp := Gap(t, w.pos);
    match tok {
      case ValT(v) =>
        s := Num(sp, w1.pos - w.pos - sp, v);
        NumberRead(t, w, sp, w1.pos - w.pos - sp, v);
      case Opr(op) =>
        var a := FactorFound(t, w1, stack + ['!']);
        s := Bang(sp, a);
      case Open =>
        s := ParenFound(t, w, stack, w1);
    }
    RunFactor(t, w, stack, s);
  }

  lemma NumberRead(t: string, w: Work, sp: nat, n: nat, v: int)
    requires NumberAt(t, w.pos, sp, n, v)
    ensures n > 0 && Spells(t, w.pos, Num(sp, n, v))
  {
  }

  /** What a successful parse says about its first token. */
  lemma DoneMeans(t: string, w: Work, stack: seq<char>)
    requires w.pos <= |t| && Pol(t, w, stack).Done? && |stack| <= STACKDEPTH
    ensures var (tok, w1) := NextToken(t, w);
            && !tok.Err?
            && (tok == Opr('!') ==> |stack| < STACKDEPTH && Pol(t, w1, stack + ['!']).Done?)
            && (tok.Open? ==> Pol(t, w1, []).Done?)
  {
    hide NextToken, Keep, Pops, Drain, Operand;
  }

  lemma {:induction false} ParenFound(t: string, w: Work, stack: seq<char>, w1: Work) returns (s: Syn)
    requires w.pos <= |t| && w.phase == WaitOperand && NextToken(t, w) == (Open, w1)
    requires Pol(t, w, stack).Done? && Pol(t, w1, []).Done?
    ensures s.Paren? && Ahead(t, w, s) && Level(s, 0) && Fits(s, |stack|) && Len(s) > 0
    decreases |t| - w1.pos, 3
  {
    hide NextToken, Pol, Emitted, TokenAt, NumberAt, Gap;
    TokenRead(t, w);
    var b := ExprFound(t, w1);
    var wb := After(w1, b, Emitted(b));
    var (tok, w3) := NextToken(t, wb);
    TokenRead(t, wb);
    StepClose(t, wb, Pending(b), w3);
    var w2 := w3.(out := w3.out + Drain(Pending(b)));
    StepOpen(t, w, stack, w1, w2);
    s := Paren(Gap(t, w.pos), b, Gap(t, wb.pos));
    AtEndNotDone(t, Operand(w2, [], stack), Keep(stack));
  }

  /** With a ')' still due, the end of the text is an error. */
  lemma AtEndNotDone(t: string, w: Work, stack: seq<char>)
    requires w.pos <= |t|
    ensures w.pos == |t| && w.count != 0 ==> !Pol(t, w, stack).Done?
  {
    TokenRead(t, w);
  }

  /** A successful parse reads a whole disjunction, up to a ')' or the end. */
  lemma {:induction false} ExprFound(t: string, w: Work) returns (s: Syn)
    requires w.pos <= |t| && w.phase == WaitOperand && Pol(t, w, []).Done?
    ensures Ahead(t, w, s) && Level(s, 2) && Fits(s, 0)
    ensures Pol(t, w, []) == Pol(t, After(w, s, Emitted(s)), Pending(s))
    ensures NextToken(t, After(w, s, Emitted(s))).0.Close? || NextToken(t, After(w, s, Emitted(s))).0.End?
    decreases |t| - w.pos, 2
  {
    hide NextToken, Pol;
    var f := FactorFound(t, w, []);
    LevelUp(f);
    s := ExprExtended(t, w, f);
  }

  lemma LevelUp(s: Syn)
    requires Level(s, 0)
    ensures Level(s, 1) && Level(s, 2) && !s.Bar? && !s.Amp?
  {
  }

  /** A disjunction with one more '&' or '|' and factor after it. */
  function Extend(s: Syn, op: char, sp: nat, f: Syn): Syn {
    if op == '|' then Bar(s, sp, f)
    else if s.Bar? then Bar(s.left, s.sp, Amp(s.right, sp, f))
    else Amp(s, sp, f)
  }

  lemma ExtendIsExpr(t: string, w: Work, s: Syn, op: char, sp: nat, p: nat, f: Syn)
    requires Ahead(t, w, s) && Level(s, 2) && Fits(s, 0) && (op == '&' || op == '|')
    requires TokenAt(t, w.pos + Len(s), sp, op) && p == w.pos + Len(s) + sp + 1 && Spells(t, p, f)
    requires p + Len(f) <= |t| && (w.count != 0 ==> p + Len(f) < |t|)
    requires Level(f, 0) && Fits(f, if op == '|' then 1 else |Pending(s)| + 1)
    ensures var s' := Extend(s, op, sp, f);
            Ahead(t, w, s') && Level(s', 2) && Fits(s', 0) && Len(s') == Len(s) + sp + 1 + Len(f)
  {
    hide TokenAt, NumberAt;
    LevelUp(f);
    if op == '&' {
      if s.Bar? {
        AmpIsTerm(t, w.pos + Len(s.left) + s.sp + 1, 1, s.right, sp, p, f);
      } else {
        NotBarIsTerm(s);
        AmpIsTerm(t, w.pos, 0, s, sp, p, f);
      }
    }
  }

  lemma AmpIsTerm(t: string, pos: nat, height: nat, s: Syn, sp: nat, p: nat, f: Syn)
    requires Spells(t, pos, s) && Level(s, 1) && Fits(s, height) && height < STACKDEPTH
    requires TokenAt(t, pos + Len(s), sp, '&') && p == pos + Len(s) + sp + 1 && Spells(t, p, f)
    requires Level(f, 0) && Fits(f, height + 1)
    ensures var s' := Amp(s, sp, f);
            && Spells(t, pos, s') && Level(s', 1) && Level(s', 2) && Fits(s', height)
            && Len(s') == Len(s) + sp + 1 + Len(f)
  {
    hide TokenAt, NumberAt;
  }

  lemma NotBarIsTerm(s: Syn)
    requires Level(s, 2) && !s.Bar?
    ensures Level(s, 1)
  {
  }

  lemma {:induction false} ExprExtended(t: string, w: Work, s: Syn) returns (r: Syn)
    requires Ahead(t, w, s) && Level(s, 2) && Fits(s, 0) && Pol(t, w, []).Done?
    ensures Ahead(t, w, r) && Level(r, 2) && Fits(r, 0)
    ensures Pol(t, w, []) == Pol(t, After(w, r, Emitted(r)), Pending(r))
    ensures NextToken(t, After(w, r, Emitted(r))).0.Close? || NextToken(t, After(w, r, Emitted(r))).0.End?
    decreases |t| - (w.pos + Len(s)), 4
  {
    hide NextToken, Pol, Emitted, Postfix, TokenAt, NumberAt, Gap;
    RunExpr(t, w, s);
    var w1 := After(w, s, Emitted(s));
    var (tok, w2) := NextToken(t, w1);
    DoneMeans(t, w1, Pending(s));
    TokenRead(t, w1);
    if tok.Opr? {
      var sp := Gap(t, w1.pos);
      var w3, stack := OperatorTaken(t, w1, s, tok.op, w2);
      var f := FactorFound(t, w3, stack);
      ExtendIsExpr(t, w, s, tok.op, sp, w3.pos, f);
      r := ExprExtended(t, w, Extend(s, tok.op, sp, f));
    } else {
      r := s;
    }
  }

  lemma OperatorTaken(t: string, w1: Work, s: Syn, op: char, w2: Work) returns (w3: Work, stack: seq<char>)
    requires w1.pos <= |t| && NextToken(t, w1) == (Opr(op), w2) && Pol(t, w1, Pending(s)).Done?
    requires op == '&' || op == '|'
    ensures w3 == w2.(out := w3.out) && |stack| == if op == '|' then 1 else |Pending(s)| + 1
    ensures Pol(t, w3, stack).Done?
  {
    hide NextToken;
    if op == '|' && s.Bar? {
      StepBar(t, w1, Pending(s), w2);
      w3, stack := w2.(out := w2.out + [NOpr('|')]), Pending(s);
    } else {
      StepPush(t, w1, Pending(s), op, w2);
      w3, stack := w2, Pending(s) + [op];
    }
  }

  // ----- the accepted texts, exactly ---------------------------------------

  const START := Work(0, WaitOperand, 0, [])

  /** t is the expression s followed by nothing but spaces. */
  predicate IsQueryText(t: string, s: Syn) {
    && Level(s, 2) && Fits(s, 0) && Spells(t, 0, s) && Len(s) <= |t|
    && forall k :: Len(s) <= k < |t| ==> t[k] == ' '
  }

  /** Every text of the grammar is parsed into the postfix form of its tree. */
  lemma QueryTextParses(t: string, s: Syn)
    requires IsQueryText(t, s)
    ensures Pol(t, START, []) == Done(Work(|t|, WaitOperator, 0, Postfix(Abs(s))))
  {
    RunExpr(t, START, s);
    var w := After(START, s, Emitted(s));
    SkipTo(t, w.pos, |t| - w.pos);
    StepClose(t, w, Pending(s), w.(pos := |t|));
    hide Pol, NextToken;
    EmittedThenPending([], s);
    assert [] + Emitted(s) == Emitted(s) && [] + Postfix(Abs(s)) == Postfix(Abs(s));
  }

  /** Every text the parser accepts is a text of the grammar. */
  lemma ParsedIsQueryText(t: string) returns (s: Syn)
    requires Pol(t, START, []).Done?
    ensures IsQueryText(t, s)
  {
    hide Pol, NextToken, TokenAt, NumberAt;
    s := ExprFound(t, START);
    TokenRead(t, After(START, s, Emitted(s)));
  }
}
