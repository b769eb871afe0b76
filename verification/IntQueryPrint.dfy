/**
 The query_int output function: infix text with the fewest parentheses it
 knows how to leave out, and the proof that reading it back gives the same
 query up to regrouping of '&'.
 */
module IntQueryPrint {
  import opened Seqs
  import opened IntQuery
  import opened IntQueryText
  import opened IntQueryParser
  import B = Buffers

  // ----- decimal numbers ---------------------------------------------------

  function DigitChar(d: int): (c: char)
    requires 0 <= d <= 9
    ensures IsDigit(c) && DigitValue(c) == d
  {
    '0' + d as char
  }

  /** Decimal digits of a natural number, as "%d" prints them. */
  function DecNat(n: nat): (s: string)
    ensures s != [] && (forall c :: c in s ==> IsDigit(c)) && (n > 0 ==> s[0] != '0')
  {
    if n < 10 then [DigitChar(n)] else DecNat(n / 10) + [DigitChar(n % 10)]
  }

  function Dec(v: int): (s: string)
    ensures IsNumeral(s)
  {
    if v < 0 then
      var d := DecNat(-v);
      assert forall k :: 0 < k < |['-'] + d| ==> (['-'] + d)[k] == d[k - 1] && d[k - 1] in d;
      ['-'] + d
    else
      var d := DecNat(v);
      assert forall k :: 0 <= k < |d| ==> d[k] in d;
      d
  }

  lemma {:induction false} ReadDigitsLast(ds: string, d: char, base: nat, acc: nat)
    requires (forall c :: c in ds ==> IsDigit(c)) && IsDigit(d) && base == 10
    ensures (forall c :: c in ds + [d] ==> IsDigit(c))
    ensures ReadDigits(ds + [d], base, acc) == ReadDigits(ds, base, acc) * base + DigitValue(d)
    decreases ds
  {
    if ds == [] {
      assert ds + [d] == [d];
    } else {
      assert (ds + [d])[1..] == ds[1..] + [d];
      ReadDigitsLast(ds[1..], d, base, acc * base + DigitValue(ds[0]));
    }
  }

  lemma {:induction false} DecNatReadsBack(n: nat)
    ensures ReadDigits(DecNat(n), 10, 0) == n
  {
    if n >= 10 {
      DecNatReadsBack(n / 10);
      ReadDigitsLast(DecNat(n / 10), DigitChar(n % 10), 10, 0);
    }
  }

  lemma {:induction false} DecNatLength(n: nat, k: nat, bound: nat)
    requires n < bound && bound == Pow10(k) && k > 0
    ensures |DecNat(n)| <= k
    decreases k
  {
    if n >= 10 {
      DecNatLength(n / 10, k - 1, Pow10(k - 1));
    }
  }

  function Pow10(k: nat): nat {
    if k == 0 then 1 else 10 * Pow10(k - 1)
  }

  /** An int32 printed with "%d" takes at most 11 characters and reads back
      unchanged, although the reader would take a leading 0 for octal. */
  lemma DecReadsBack(v: int)
    requires IsInt32(v)
    ensures StrToL(Dec(v)) == v && |Dec(v)| <= 11
  {
    var m := if v < 0 then -v else v;
    DecNatReadsBack(m);
    assert Pow10(10) == 10_000_000_000 by {
      assert Pow10(5) == 100_000;
      assert Pow10(8) == 100_000_000;
    }
    DecNatLength(m, 10, Pow10(10));
    if v < 0 {
      assert Dec(v)[1..] == DecNat(m);
    } else if v == 0 {
      assert DecNat(0) == ['0'];
      assert ['0'][1..] == [];
    }
  }

  // ----- printing ----------------------------------------------------------

  function Print(q: Query, first: bool): string {
    match q
    case Val(v) => Dec(v)
    case Not(a) => if a.Val? then "!" + Print(a, false) else "!( " + Print(a, true) + " )"
    case And(l, r) => Print(l, false) + " & " + Print(r, false)
    case Or(l, r) =>
      if first then Print(l, false) + " | " + Print(r, false)
      else "( " + (Print(l, false) + " | " + Print(r, false)) + " )"
  }

  /** a & b with b's own conjunction flattened to the left. */
  function AndLeft(a: Query, b: Query): Query {
    if b.And? then And(AndLeft(a, b.left), b.right) else And(a, b)
  }

  /** The query with every conjunction grouped to the left. */
  function Canon(q: Query): Query {
    match q
    case Val(v) => q
    case Not(a) => Not(Canon(a))
    case And(l, r) => AndLeft(Canon(l), Canon(r))
    case Or(l, r) => Or(Canon(l), Canon(r))
  }

  predicate Int32Values(q: Query) {
    match q
    case Val(v) => IsInt32(v)
    case Not(a) => Int32Values(a)
    case And(l, r) => Int32Values(l) && Int32Values(r)
    case Or(l, r) => Int32Values(l) && Int32Values(r)
  }

  function AmpLeft(a: Syn, sp: nat, b: Syn): Syn {
    if b.Amp? then Amp(AmpLeft(a, sp, b.left), b.sp, b.right) else Amp(a, sp, b)
  }

  /** The syntax of the printed text, with sp spaces in front. */
  function Shape(q: Query, first: bool, sp: nat): Syn {
    match q
    case Val(v) => Num(sp, |Dec(v)|, v)
    case Not(a) => Bang(sp, if a.Val? then Shape(a, false, 0) else Paren(0, Shape(a, true, 1), 1))
    case And(l, r) => AmpLeft(Shape(l, false, sp), 1, Shape(r, false, 1))
    case Or(l, r) =>
      if first then Bar(Shape(l, false, sp), 1, Shape(r, false, 1))
      else Paren(sp, Bar(Shape(l, false, 1), 1, Shape(r, false, 1)), 1)
  }

  /** A factor that the printer may produce: it fits on a stack of height two. */
  predicate FactorOk(s: Syn) {
    Level(s, 0) && !s.Amp? && !s.Bar? && !Abs(s).And? && Fits(s, 0) && Fits(s, 1) && Fits(s, 2)
  }

  /** A chain of such factors joined by '&'. */
  predicate TermOk(s: Syn) {
    if s.Amp? then TermOk(s.left) && FactorOk(s.right) else FactorOk(s)
  }

  lemma {:induction false} TermOkMeans(s: Syn)
    requires TermOk(s)
    ensures Level(s, 1) && Level(s, 2) && Fits(s, 0) && Fits(s, 1)
  {
    if s.Amp? { TermOkMeans(s.left); }
  }

  lemma {:induction false} AmpLeftMeans(a: Syn, sp: nat, b: Syn)
    requires TermOk(a) && TermOk(b)
    ensures var s := AmpLeft(a, sp, b);
            && TermOk(s) && s.Amp? && Abs(s) == AndLeft(Abs(a), Abs(b)) && Len(s) == Len(a) + sp + 1 + Len(b)
  {
    hide FactorOk;
    if b.Amp? { AmpLeftMeans(a, sp, b.left); } else { FactorNotAnd(b); }
  }

  lemma FactorNotAnd(b: Syn)
    requires FactorOk(b)
    ensures !Abs(b).And?
  {
  }

  lemma {:induction false} AmpLeftSpells(t: string, pos: nat, a: Syn, sp: nat, b: Syn)
    requires Spells(t, pos, a) && TokenAt(t, pos + Len(a), sp, '&') && Spells(t, pos + Len(a) + sp + 1, b)
    requires TermOk(a) && TermOk(b)
    ensures Spells(t, pos, AmpLeft(a, sp, b))
    decreases b
  {
    hide FactorOk, TokenAt, NumberAt;
    if b.Amp? {
      AmpLeftSpells(t, pos, a, sp, b.left);
      AmpLeftMeans(a, sp, b.left);
    }
  }

  /** The printed text's syntax: a term, or a disjunction when outermost; it
      stands for the regrouped query and is as long as the text. */
  lemma {:induction false} ShapeMeans(q: Query, first: bool, sp: nat)
    ensures var s := Shape(q, first, sp);
            && Abs(s) == Canon(q) && Len(s) == sp + |Print(q, first)|
            && Level(s, 2) && Fits(s, 0) && (!(first && q.Or?) ==> TermOk(s))
    decreases q, 1
  {
    match q
    case Val(v) =>
    case Not(a) => if a.Val? { ShapeMeans(a, false, 0); } else { ShapeMeans(a, true, 1); }
    case And(l, r) =>
      ShapeMeans(l, false, sp);
      ShapeMeans(r, false, 1);
      AmpLeftMeans(Shape(l, false, sp), 1, Shape(r, false, 1));
      TermOkMeans(Shape(q, first, sp));
    case Or(l, r) =>
      ShapeMeansOr(q, sp);
      ShapeMeansOr(q, 1);
  }

  lemma {:induction false} ShapeMeansOr(q: Query, sp: nat)
    requires q.Or?
    ensures var s := Bar(Shape(q.left, false, sp), 1, Shape(q.right, false, 1));
            && Abs(s) == Canon(q) && Level(s, 2) && Fits(s, 0)
            && Len(s) == sp + |Print(q.left, false) + " | " + Print(q.right, false)|
    decreases q, 0
  {
    ShapeMeans(q.left, false, sp);
    ShapeMeans(q.right, false, 1);
    TermOkMeans(Shape(q.left, false, sp));
    TermOkMeans(Shape(q.right, false, 1));
  }

  // ----- the printed text spells its syntax --------------------------------

  lemma AtAround(t: string, base: nat, before: string, mid: string, after: string)
    requires At(t, base, before + mid + after)
    ensures At(t, base, before) && At(t, base + |before|, mid) && At(t, base + |before| + |mid|, after)
  {
    AtSplit(t, base, before + mid, after);
    AtSplit(t, base, before, mid);
  }

  lemma AtChars(t: string, base: nat, s: string)
    requires At(t, base, s)
    ensures |s| >= 1 ==> t[base] == s[0]
    ensures |s| >= 2 ==> t[base + 1] == s[1]
    ensures |s| >= 3 ==> t[base + 2] == s[2]
  {
    if |s| >= 1 { assert t[base + 0] == s[0]; }
  }

  lemma NumberSpelled(t: string, pos: nat, sp: nat, v: int)
    requires IsInt32(v) && (forall k :: pos <= k < pos + sp ==> k < |t| && t[k] == ' ')
    requires At(t, pos + sp, Dec(v)) && (pos + sp + |Dec(v)| < |t| ==> !IsDigit(t[pos + sp + |Dec(v)|]))
    ensures NumberAt(t, pos, sp, |Dec(v)|, v)
  {
    DecReadsBack(v);
    assert t[pos + sp..pos + sp + |Dec(v)|] == Dec(v);
  }

  predicate Blank(t: string, pos: nat, sp: nat) {
    pos + sp <= |t| && forall k :: pos <= k < pos + sp ==> t[k] == ' '
  }

  /** Nothing that could lengthen a number stands at p. */
  predicate NoDigitAt(t: string, p: nat) { p < |t| ==> !IsDigit(t[p]) }

  /** Characters of a punctuation string, as the tokens and gaps they form. */
  lemma Punctuation(t: string, p: nat, s: string)
    requires At(t, p, s)
    ensures Blank(t, p, 0)
    ensures |s| >= 1 && s[0] == ' ' ==> Blank(t, p, 1) && NoDigitAt(t, p)
    ensures |s| >= 1 ==> TokenAt(t, p, 0, s[0])
    ensures |s| >= 2 ==> TokenAt(t, p + 1, 0, s[1]) && (s[0] == ' ' ==> TokenAt(t, p, 1, s[1]))
    ensures |s| >= 3 && s[2] == ' ' ==> Blank(t, p + 2, 1)
    ensures |s| >= 2 && s[1] == ' ' ==> Blank(t, p + 1, 1)
  {
    AtChars(t, p, s);
  }

  lemma TokenAfterBlank(t: string, pos: nat, sp: nat, c: char)
    requires Blank(t, pos, sp) && TokenAt(t, pos + sp, 0, c)
    ensures TokenAt(t, pos, sp, c)
  {
  }

  lemma {:induction false} PrintSpells(t: string, pos: nat, q: Query, first: bool, sp: nat)
    requires Int32Values(q) && Blank(t, pos, sp) && At(t, pos + sp, Print(q, first))
    requires NoDigitAt(t, pos + sp + |Print(q, first)|)
    ensures Spells(t, pos, Shape(q, first, sp))
    decreases q, if first then 2 else 5
  {
    hide At, Blank, NoDigitAt, TokenAt, NumberAt, TermOk;
    if q.Val? {
      hide Dec;
      NumberOf(t, pos, q, first, sp);
    } else if q.Not? {
      PrintSpellsNot(t, pos, q, first, sp);
    } else if q.And? {
      PrintSpellsAnd(t, pos, q, first, sp);
    } else if first {
      OperandsSpelled(t, pos, q.left, " | ", q.right, sp);
    } else {
      PrintSpellsOr(t, pos, q, sp);
    }
  }

  lemma NumberOf(t: string, pos: nat, q: Query, first: bool, sp: nat)
    requires q.Val? && Int32Values(q) && Blank(t, pos, sp) && At(t, pos + sp, Print(q, first))
    requires NoDigitAt(t, pos + sp + |Print(q, first)|)
    ensures NumberAt(t, pos, sp, |Dec(q.v)|, q.v)
  {
    hide At, NumberAt, Dec;
    NumberSpelled(t, pos, sp, q.v);
  }

  lemma {:induction false} PrintSpellsAnd(t: string, pos: nat, q: Query, first: bool, sp: nat)
    requires q.And? && Int32Values(q) && Blank(t, pos, sp) && At(t, pos + sp, Print(q, first))
    requires NoDigitAt(t, pos + sp + |Print(q, first)|)
    ensures Spells(t, pos, Shape(q, first, sp))
    decreases q, 1
  {
    hide At, Blank, NoDigitAt, TokenAt, NumberAt, TermOk, Spells;
    var l, r := q.left, q.right;
    OperandsSpelled(t, pos, l, " & ", r, sp);
    hide Print;
    ShapeMeans(l, false, sp);
    ShapeMeans(r, false, 1);
    AmpLeftSpells(t, pos, Shape(l, false, sp), 1, Shape(r, false, 1));
  }

  lemma {:induction false} PrintSpellsNot(t: string, pos: nat, q: Query, first: bool, sp: nat)
    requires q.Not? && Int32Values(q) && Blank(t, pos, sp) && At(t, pos + sp, Print(q, first))
    requires NoDigitAt(t, pos + sp + |Print(q, first)|)
    ensures Spells(t, pos, Shape(q, first, sp))
    decreases q, 1
  {
    hide At, Blank, NoDigitAt, TokenAt, NumberAt, TermOk, Int32Values;
    if q.arg.Val? {
      ArgInt32(q);
      AtSplit(t, pos + sp, "!", Print(q.arg, false));
      Punctuation(t, pos + sp, "!");
      Punctuation(t, pos + sp + 1, Print(q.arg, false));
      TokenAfterBlank(t, pos, sp, '!');
      PrintSpells(t, pos + sp + 1, q.arg, false, 0);
    } else {
      NegatedGroupSpelled(t, pos, q, first, sp);
    }
  }

  lemma {:induction false} NegatedGroupSpelled(t: string, pos: nat, q: Query, first: bool, sp: nat)
    requires q.Not? && !q.arg.Val? && Int32Values(q) && Blank(t, pos, sp) && At(t, pos + sp, Print(q, first))
    ensures Spells(t, pos, Shape(q, first, sp))
    decreases q, 0
  {
    hide At, Blank, NoDigitAt, TokenAt, NumberAt, TermOk, Int32Values;
    ArgInt32(q);
    AtAround(t, pos + sp, "!( ", Print(q.arg, true), " )");
    Punctuation(t, pos + sp, "!( ");
    TokenAfterBlank(t, pos, sp, '!');
    GroupSpelled(t, pos + sp + 1, q.arg);
  }

  /** A query in parentheses. */
  lemma {:induction false} GroupSpelled(t: string, pos: nat, a: Query)
    requires !a.Val? && Int32Values(a) && TokenAt(t, pos, 0, '(') && Blank(t, pos + 1, 1)
    requires At(t, pos + 2, Print(a, true)) && At(t, pos + 2 + |Print(a, true)|, " )")
    ensures var s := Shape(a, true, 1); Spells(t, pos + 1, s) && TokenAt(t, pos + 1 + Len(s), 1, ')')
    decreases a, 3
  {
    hide At, Blank, NoDigitAt, TokenAt, NumberAt, TermOk, Int32Values, Print, Shape, Spells;
    Punctuation(t, pos + 2 + |Print(a, true)|, " )");
    PrintSpells(t, pos + 1, a, true, 1);
    ShapeMeans(a, true, 1);
  }

  lemma ArgInt32(q: Query)
    requires Int32Values(q)
    ensures q.Not? ==> Int32Values(q.arg)
    ensures q.And? || q.Or? ==> Int32Values(q.left) && Int32Values(q.right)
  {
  }

  lemma {:induction false} PrintSpellsOr(t: string, pos: nat, q: Query, sp: nat)
    requires q.Or? && Int32Values(q) && Blank(t, pos, sp) && At(t, pos + sp, Print(q, false))
    ensures Spells(t, pos, Shape(q, false, sp))
    decreases q, 4
  {
    hide At, Blank, NoDigitAt, TokenAt, NumberAt, TermOk, Int32Values, Print, Shape;
    OrGroup(q, sp);
    AtAround(t, pos + sp, "( ", Print(q, true), " )");
    Punctuation(t, pos + sp, "( ");
    TokenAfterBlank(t, pos, sp, '(');
    GroupSpelled(t, pos + sp, q);
  }

  lemma OrGroup(q: Query, sp: nat)
    requires q.Or?
    ensures Print(q, false) == "( " + Print(q, true) + " )"
    ensures Shape(q, false, sp) == Paren(sp, Shape(q, true, 1), 1)
  {
    hide Dec;
  }

  /** Both operands of a binary operator and the operator between them. */
  lemma {:induction false} OperandsSpelled(t: string, pos: nat, l: Query, op: string, r: Query, sp: nat)
    requires Int32Values(l) && Int32Values(r) && Blank(t, pos, sp) && (op == " & " || op == " | ")
    requires At(t, pos + sp, Print(l, false) + op + Print(r, false))
    requires NoDigitAt(t, pos + sp + |Print(l, false) + op + Print(r, false)|)
    ensures var s := Shape(l, false, sp);
            && Spells(t, pos, s) && TokenAt(t, pos + Len(s), 1, op[1]) && Spells(t, pos + Len(s) + 2, Shape(r, false, 1))
    decreases if op == " & " then And(l, r) else Or(l, r), 0
  {
    hide At, Blank, NoDigitAt, TokenAt, NumberAt, TermOk, Int32Values, Print, Shape, Spells;
    AtAround(t, pos + sp, Print(l, false), op, Print(r, false));
    var e := pos + sp + |Print(l, false)|;
    Punctuation(t, e, op);
    ShapeMeans(l, false, sp);
    PrintSpells(t, pos, l, false, sp);
    PrintSpells(t, e + 2, r, false, 1);
  }

  /** The text printed for a query is a text of the grammar, for the same query
      regrouped; so it is always accepted, whatever the nesting. */
  lemma PrintedIsQueryText(q: Query)
    requires Int32Values(q)
    ensures IsQueryText(Print(q, true), Shape(q, true, 0))
    ensures Abs(Shape(q, true, 0)) == Canon(q)
  {
    AtSelf(Print(q, true));
    PrintSpells(Print(q, true), 0, q, true, 0);
    ShapeMeans(q, true, 0);
  }

  // ----- regrouping --------------------------------------------------------

  lemma {:induction false} AndLeftMeans(a: Query, b: Query, holds: int -> bool)
    ensures Eval(AndLeft(a, b), holds) == (Eval(a, holds) && Eval(b, holds))
    ensures Size(AndLeft(a, b)) == Size(a) + Size(b) + 1
  {
    if b.And? { AndLeftMeans(a, b.left, holds); }
  }

  /** Regrouping '&' changes neither the truth value nor the number of items. */
  lemma {:induction false} CanonMeans(q: Query, holds: int -> bool)
    ensures Eval(Canon(q), holds) == Eval(q, holds) && Size(Canon(q)) == Size(q)
  {
    match q
    case Val(v) =>
    case Not(a) => CanonMeans(a, holds);
    case And(l, r) => CanonMeans(l, holds); CanonMeans(r, holds); AndLeftMeans(Canon(l), Canon(r), holds);
    case Or(l, r) => CanonMeans(l, holds); CanonMeans(r, holds);
  }

  lemma {:induction false} AndLeftPrints(a: Query, b: Query, first: bool)
    ensures Print(AndLeft(a, b), first) == Print(a, false) + " & " + Print(b, false)
    ensures AndLeft(a, b).And?
  {
    if b.And? {
      AndLeftPrints(a, b.left, false);
      assert (Print(a, false) + " & " + Print(b.left, false)) + " & " + Print(b.right, false)
          == Print(a, false) + " & " + (Print(b.left, false) + " & " + Print(b.right, false));
    }
  }

  /** Printing the query read back gives the same text again. */
  lemma {:induction false} CanonPrints(q: Query, first: bool)
    ensures Print(Canon(q), first) == Print(q, first)
    ensures Canon(q).Val? == q.Val?
  {
    match q
    case Val(v) =>
    case Not(a) => CanonPrints(a, true); CanonPrints(a, false);
    case And(l, r) => CanonPrints(l, false); CanonPrints(r, false); AndLeftPrints(Canon(l), Canon(r), first);
    case Or(l, r) => CanonPrints(l, false); CanonPrints(r, false);
  }

  // ----- the output function -----------------------------------------------

  /** A growing text buffer and a cursor walking the items backwards. */
  class Infix {
    const items: seq<Item>
    var curpol: int
    var buf: string
    var buflen: nat

    constructor (items: seq<Item>, curpol: int, buflen: nat)
      requires buflen == 16 || buflen == 32
      ensures this.items == items && this.curpol == curpol && buf == "" && Valid()
    {
      this.items, this.curpol, this.buf, this.buflen := items, curpol, "", buflen;
    }

    /** The text and its terminating NUL lie inside the buffer. */
    ghost predicate Valid()
      reads this
    {
      |buf| < buflen <= B.MAXBUF && B.IsDoubled(buflen)
    }

    /** Appends s, after doubling the buffer until reserve more characters fit, unless
        that takes more than one allocation. */
    method Append(reserve: nat, s: string) returns (ok: bool)
      requires Valid() && |s| <= reserve
      modifies this`buf, this`buflen
      ensures ok <==> old(|buf|) + reserve + 1 < B.MAXBUF
      ensures ok ==> Valid() && buf == old(buf) + s
    {
      while |buf| + reserve + 1 >= buflen
        invariant Valid() && buf == old(buf)
        decreases |buf| + reserve + 1 - buflen
      {
        B.ByteRoom(buflen);
        if buflen * 2 > B.MAXALLOC {
          return false;
        }
        buflen := buflen * 2;
      }
      buf := buf + s;
      return true;
    }

    /** Prints the subquery that ends at the cursor and moves the cursor before it. */
    method Run(first: bool, ghost q: Query) returns (ok: bool)
      requires Valid() && NodesEnd(Nodes(items), curpol, q) && Int32Values(q)
      modifies this
      ensures ok <==> Peak(q, first, old(|buf|)) < B.MAXBUF
      ensures ok ==> Valid() && buf == old(buf) + Print(q, first) && curpol == old(curpol) - Size(q)
      decreases q
    {
      hide Dec;
      var node := items[curpol].node;
      assert node == Nodes(items)[curpol];
      if node.NVal? {
        assert |Dec(node.val)| <= 11 by { DecReadsBack(node.val); }
        ok := Append(11, Dec(node.val));
        curpol := curpol - 1;
      } else if node.op == '!' {
        ok := RunNot(q);
      } else {
        ok := RunBinary(first, node.op, q);
      }
    }

    /** An operator under the negation gets parentheses. */
    method RunNot(ghost q: Query) returns (ok: bool)
      requires Valid() && NodesEnd(Nodes(items), curpol, q) && Int32Values(q) && q.Not?
      modifies this
      ensures ok <==> Peak(q, true, old(|buf|)) < B.MAXBUF
      ensures ok ==> Valid() && buf == old(buf) + Print(q, true) && curpol == old(curpol) - Size(q)
      decreases q, 0
    {
      NotNodes(Nodes(items), curpol, q);
      PrintNot(q, |buf|);
      ArgInt32(q);
      hide Print, Peak, NodesEnd, Int32Values;
      assert items[curpol - 1].node == Nodes(items)[curpol - 1];
      hide Nodes;
      ok := Append(1, "!");
      if !ok { return; }
      curpol := curpol - 1;
      var isopr := items[curpol].node.NOpr?;
      if isopr {
        ok := Append(2, "( ");
        if !ok { return; }
      }
      ok := Run(isopr, q.arg);
      if !ok { return; }
      if isopr {
        ok := Append(2, " )");
        NegatedGroup(old(buf), Print(q.arg, true));
      } else {
        Negated(old(buf), Print(q.arg, false));
      }
    }

    /** A disjunction inside another operator gets parentheses. */
    method RunBinary(first: bool, op: char, ghost q: Query) returns (ok: bool)
      requires Valid() && NodesEnd(Nodes(items), curpol, q) && Int32Values(q)
      requires (q.And? && op == '&') || (q.Or? && op == '|')
      modifies this
      ensures ok <==> Peak(q, first, old(|buf|)) < B.MAXBUF
      ensures ok ==> Valid() && buf == old(buf) + Print(q, first) && curpol == old(curpol) - Size(q)
      decreases q, 1
    {
      PrintBinary(q, op, first);
      PeakBinary(q, op, first, |buf|);
      hide Print, NodesEnd, Int32Values, Peak;
      if op == '|' && !first {
        ok := Append(2, "( ");
        if !ok { return; }
        ok := RunOperands(op, q);
        if !ok { return; }
        ok := Append(2, " )");
        Wrapped(old(buf), Inner(q, op));
      } else {
        ok := RunOperands(op, q);
      }
    }

    /** The right operand is printed to a buffer of its own, then the left one here. */
    method RunOperands(op: char, ghost q: Query) returns (ok: bool)
      requires Valid() && NodesEnd(Nodes(items), curpol, q) && Int32Values(q)
      requires (q.And? && op == '&') || (q.Or? && op == '|')
      modifies this
      ensures ok <==> PeakInner(q, old(|buf|)) < B.MAXBUF
      ensures ok ==> Valid() && buf == old(buf) + Inner(q, op) && curpol == old(curpol) - Size(q)
      decreases q, 0
    {
      OperandNodes(Nodes(items), curpol, q);
      ArgInt32(q);
      hide Print, NodesEnd, Int32Values, Nodes, Peak;
      curpol := curpol - 1;
      var nrm := new Infix(items, curpol, 16);
      ok := nrm.Run(false, q.right);
      if !ok { return; }
      assert nrm.buf == Print(q.right, false);
      curpol := nrm.curpol;
      ok := Run(false, q.left);
      if !ok { return; }
      ok := Append(3 + |nrm.buf|, [' ', op, ' '] + nrm.buf);
      Joined(old(buf), Print(q.left, false), [' ', op, ' '], Print(q.right, false));
    }
  }

  function Max(a: nat, b: nat): nat {
    if a < b then b else a
  }

  /** The most room, of the buffers used, that is asked for to print q after at
      characters: what is there, the characters to come and a NUL. */
  function Peak(q: Query, first: bool, at: nat): nat
    decreases q, 1
  {
    match q
    case Val(_) => at + 12
    case Not(a) =>
      if a.Val? then Max(at + 2, Peak(a, false, at + 1))
      else Max(Max(at + 4, Peak(a, true, at + 3)), at + 3 + |Print(a, true)| + 3)
    case And(_, _) => PeakInner(q, at)
    case Or(_, _) => if first then PeakInner(q, at) else Max(Max(at + 3, PeakInner(q, at + 2)), at + 2 + |Inner(q, '|')| + 3)
  }

  /** The same for the operands with their operator. The right one is printed to a
      buffer of its own. */
  function PeakInner(q: Query, at: nat): nat
    requires q.And? || q.Or?
    decreases q, 0
  {
    Max(Max(Peak(q.right, false, 0), Peak(q.left, false, at)), at + |Print(q.left, false)| + 4 + |Print(q.right, false)|)
  }

  lemma NotNodes(nodes: seq<Node>, cur: int, q: Query)
    requires NodesEnd(nodes, cur, q) && q.Not?
    ensures NodesEnd(nodes, cur - 1, q.arg) && 0 < cur && (nodes[cur - 1].NVal? <==> q.arg.Val?)
  {
  }

  lemma PrintNot(q: Query, at: nat)
    requires q.Not?
    ensures Print(q, true) == if q.arg.Val? then "!" + Print(q.arg, false) else "!( " + Print(q.arg, true) + " )"
    ensures Print(q, false) == Print(q, true) && Peak(q, false, at) == Peak(q, true, at)
    ensures Peak(q, true, at) == if q.arg.Val? then Max(at + 2, Peak(q.arg, false, at + 1))
      else Max(Max(at + 4, Peak(q.arg, true, at + 3)), at + 3 + |Print(q.arg, true)| + 3)
  {
    hide Dec;
  }

  lemma PeakBinary(q: Query, op: char, first: bool, at: nat)
    requires (q.And? && op == '&') || (q.Or? && op == '|')
    ensures Peak(q, first, at) == if op == '|' && !first
      then Max(Max(at + 3, PeakInner(q, at + 2)), at + 2 + |Inner(q, op)| + 3) else PeakInner(q, at)
  {
  }

  /** That is the text and its NUL, and at most eleven characters more. */
  lemma {:induction false} PeakIsLength(q: Query, first: bool, at: nat)
    requires Int32Values(q)
    ensures at + |Print(q, first)| < Peak(q, first, at) <= at + |Print(q, first)| + 12
  {
    match q
    case Val(v) => DecReadsBack(v);
    case Not(a) =>
      PrintNot(q, at);
      hide Print, Peak;
      PeakIsLength(a, !a.Val?, if a.Val? then at + 1 else at + 3);
    case And(l, r) =>
      PrintBinary(q, '&', first);
      PeakBinary(q, '&', first, at);
      hide Print, Peak;
      PeakIsLength(r, false, 0);
      PeakIsLength(l, false, at);
    case Or(l, r) =>
      PrintBinary(q, '|', first);
      PeakBinary(q, '|', first, at);
      hide Print, Peak;
      PeakIsLength(r, false, 0);
      PeakIsLength(l, false, if first then at else at + 2);
  }

  /** A binary operator between its printed operands. */
  function Inner(q: Query, op: char): string
    requires q.And? || q.Or?
  {
    Print(q.left, false) + [' ', op, ' '] + Print(q.right, false)
  }

  lemma Joined(start: string, l: string, op: string, r: string)
    ensures start + l + (op + r) == start + (l + op + r)
  {
  }

  lemma Wrapped(start: string, inner: string)
    ensures start + "( " + inner + " )" == start + ("( " + inner + " )")
  {
  }

  lemma NegatedGroup(start: string, inner: string)
    ensures start + "!" + "( " + inner + " )" == start + ("!( " + inner + " )")
  {
  }

  lemma Negated(start: string, arg: string)
    ensures start + "!" + arg == start + ("!" + arg)
  {
  }

  lemma PrintBinary(q: Query, op: char, first: bool)
    requires (q.And? && op == '&') || (q.Or? && op == '|')
    ensures Print(q, first) == if op == '|' && !first then "( " + Inner(q, op) + " )" else Inner(q, op)
  {
  }

  lemma OperandNodes(nodes: seq<Node>, cur: int, q: Query)
    requires NodesEnd(nodes, cur, q) && (q.And? || q.Or?)
    ensures NodesEnd(nodes, cur - 1, q.right) && NodesEnd(nodes, cur - 1 - Size(q.right), q.left)
  {
  }

  datatype OutResult = EmptyQuery | NoMemory | Printed(text: string)

  /** The text of a stored query, if the buffer for it can be had. */
  method BqarrOut(items: seq<Item>, ghost q: Query) returns (r: OutResult)
    requires items != [] ==> NodesEnd(Nodes(items), |items| - 1, q) && Int32Values(q)
    ensures r == if items == [] then EmptyQuery else if Peak(q, true, 0) < B.MAXBUF then Printed(Print(q, true)) else NoMemory
  {
    if |items| == 0 {
      return EmptyQuery;
    }
    var nrm := new Infix(items, |items| - 1, 32);
    var ok := nrm.Run(true, q);
    if !ok {
      return NoMemory;
    }
    assert "" + Print(q, true) == Print(q, true);
    return Printed(nrm.buf);
  }

  /** Printing and reading back: whatever the input function answers for the
      printed text, it is the linked items of the regrouped query, never an
      error. */
  lemma PrintThenParse(q: Query, r: InResult)
    requires Int32Values(q) && Size(q) <= QUERYTYPEMAXITEMS
    requires FollowsGrammar(Print(q, true), r)
    ensures r.Parsed? && |r.items| == Size(q) && LinkedEnd(r.items, |r.items| - 1, Canon(q))
  {
    hide IsQueryText, LinkedEnd, Shape, Print, Abs, Canon;
    var t := Print(q, true);
    PrintedIsQueryText(q);
    CanonMeans(q, _ => true);
    if r.TooManyItems? {
      var s :| IsQueryText(t, s) && Size(Abs(s)) > QUERYTYPEMAXITEMS;
      OneMeaning(t, s, Shape(q, true, 0));
    } else {
      assert r.Parsed?;
      var s :| HoldsQuery(t, s, r.items) && Size(Abs(s)) <= QUERYTYPEMAXITEMS;
      OneMeaning(t, s, Shape(q, true, 0));
    }
  }

  /** n ones joined by |, grouped to the left. */
  function Ones(n: nat): (q: Query)
    requires n > 0
    ensures Size(q) == 2 * n - 1 && Int32Values(q) && Canon(q) == q
  {
    if n == 1 then Val(1) else Or(Ones(n - 1), Val(1))
  }

  /** The text 1&(1|1|..|1) with 16385 to 32768 ones in the parentheses is accepted, and
      its links are not exact: evaluation leaves the query, whatever the array. */
  lemma LargeOperandGoesWrong(n: nat, r: InResult, calcnot: bool, chk: (int, int) -> bool)
    requires 16385 <= n <= 32768 && FollowsGrammar(Print(And(Val(1), Ones(n)), true), r)
    ensures r.Parsed? && LinkedEnd(r.items, |r.items| - 1, And(Val(1), Ones(n)))
    ensures !LinksExact(r.items, |r.items| - 1, And(Val(1), Ones(n)))
    ensures Execute(r.items, |r.items| - 1, calcnot, chk) == None
  {
    hide Print, FollowsGrammar, Execute, LinkedEnd, LinksExact, Ones, Canon;
    var q := And(Val(1), Ones(n));
    LargeOperand(n);
    PrintThenParse(q, r);
    LinksExactIffFit(r.items, |r.items| - 1, q);
    WrappedLinkLeaves(r.items, q, calcnot, chk);
  }

  lemma LargeOperand(n: nat)
    requires n > 1
    ensures var q := And(Val(1), Ones(n)); Canon(q) == q && Size(q) == 2 * n + 1 && Int32Values(q)
  {
    assert Ones(n).Or?;
  }

  /** The printed text is a C string. */
  lemma {:induction false} PrintHasNoNul(q: Query, first: bool)
    ensures '\0' !in Print(q, first)
  {
    match q
    case Val(v) =>
      assert forall k :: 0 <= k < |Dec(v)| ==> Dec(v)[k] != '\0';
    case Not(a) => PrintHasNoNul(a, true); PrintHasNoNul(a, false);
    case And(l, r) => PrintHasNoNul(l, false); PrintHasNoNul(r, false);
    case Or(l, r) => PrintHasNoNul(l, false); PrintHasNoNul(r, false);
  }
}
