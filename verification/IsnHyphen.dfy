/** Putting hyphens into a number in place, by tables of number ranges. */
module IsnHyphen {

  /** Rows of lower and upper bounds of ranges, written with their hyphens, and
      for each first digit where its rows start and how many there are. */
  datatype Range = Range(lower: string, upper: string)
  datatype Table = Table(rows: seq<Range>, index: seq<(nat, nat)>)

  predicate IsDigit(c: char) {
    '0' <= c <= '9'
  }

  predicate AllDigits(s: string) {
    forall i :: 0 <= i < |s| ==> IsDigit(s[i])
  }

  /** How many of the first n characters are not hyphens. */
  function Slots(p: string, n: nat): (k: nat)
    requires n <= |p|
    ensures k <= n
  {
    if n == 0 then 0 else Slots(p, n - 1) + if p[n - 1] == '-' then 0 else 1
  }

  /** A row starts with a digit, has the given number of hyphens and at most the
      given number of digits, nothing else, and both bounds in one format. */
  predicate RowOk(r: Range, hyphens: nat, digits: nat) {
    && |r.lower| == |r.upper| > 0 && IsDigit(r.lower[0]) && IsDigit(r.upper[0])
    && (forall i :: 0 <= i < |r.lower| ==> SameKind(r.lower[i], r.upper[i]))
    && (forall i :: 0 <= i < |r.lower| && r.lower[i] == '-' ==> HyphenOk(r.lower, i))
    && |r.lower| == Slots(r.lower, |r.lower|) + hyphens && Slots(r.lower, |r.lower|) <= digits
  }

  predicate SameKind(a: char, b: char) {
    (a == '-' && b == '-') || (IsDigit(a) && IsDigit(b))
  }

  predicate HyphenOk(s: string, i: nat) {
    i + 1 < |s| && s[i + 1] != '-'
  }

  predicate TableOk(t: Table, hyphens: nat, digits: nat) {
    && (forall i :: 0 <= i < |t.rows| ==> RowOk(t.rows[i], hyphens, digits))
    && |t.index| == 10 && forall d :: 0 <= d < 10 ==> t.index[d].0 + t.index[d].1 <= |t.rows|
  }

  // ----- finding a range -----------------------------------------------------

  /** How digits compare with the first n characters of a bound, hyphens left out
      of account: the sign of the first difference. */
  function Sign(digits: string, b: string, n: nat): int
    requires n <= |b| && Slots(b, n) <= |digits|
  {
    if n == 0 then 0
    else if b[n - 1] == '-' || Sign(digits, b, n - 1) != 0 then Sign(digits, b, n - 1)
    else if digits[Slots(b, n) - 1] < b[n - 1] then -1
    else if digits[Slots(b, n) - 1] > b[n - 1] then 1
    else 0
  }

  /** The digits start with a number within the row's range. */
  predicate InRange(digits: string, r: Range) {
    && Slots(r.lower, |r.lower|) <= |digits| && Slots(r.upper, |r.upper|) <= |digits|
    && Sign(digits, r.lower, |r.lower|) >= 0 && Sign(digits, r.upper, |r.upper|) <= 0
  }

  lemma {:induction false} SlotsUp(p: string, n: nat, m: nat)
    requires n <= m <= |p|
    ensures Slots(p, n) <= Slots(p, m) <= Slots(p, n) + (m - n)
  {
    if n < m { SlotsUp(p, n, m - 1); }
  }

  lemma {:induction false} SameSlots(r: Range, hyphens: nat, digits: nat, n: nat)
    requires RowOk(r, hyphens, digits) && n <= |r.lower|
    ensures Slots(r.lower, n) == Slots(r.upper, n)
  {
    if n > 0 {
      SameSlots(r, hyphens, digits, n - 1);
      assert SameKind(r.lower[n - 1], r.upper[n - 1]);
    }
  }

  /** A difference once found decides. */
  lemma {:induction false} SignStays(digits: string, b: string, n: nat, m: nat)
    requires n <= m <= |b| && Slots(b, m) <= |digits| && Slots(b, n) <= |digits| && Sign(digits, b, n) != 0
    ensures Sign(digits, b, m) == Sign(digits, b, n)
  {
    SlotsUp(b, n, m);
    if n < m {
      SlotsUp(b, m - 1, m);
      SignStays(digits, b, n, m - 1);
    }
  }

  predicate Before(digits: string, r: Range) {
    Slots(r.lower, |r.lower|) <= |digits| && Sign(digits, r.lower, |r.lower|) < 0
  }

  predicate After(digits: string, r: Range) {
    Slots(r.upper, |r.upper|) <= |digits| && Sign(digits, r.upper, |r.upper|) > 0
  }

  /** The rows are in ascending order, for numbers of at least max digits. */
  ghost predicate Ascending(rows: seq<Range>, max: nat) {
    forall d, i, j :: 0 <= i < j < |rows| && max <= |d| ==>
      (Before(d, rows[i]) ==> Before(d, rows[j])) && (After(d, rows[j]) ==> After(d, rows[i]))
  }

  /** None of the rows of the first digit is for the digits, if the rows ascend. */
  ghost predicate NoRow(digits: string, t: Table, max: nat)
    requires |t.index| == 10 && digits != [] && IsDigit(digits[0])
  {
    var at := t.index[FirstDigit(digits)];
    Ascending(t.rows, max) ==> forall k :: at.0 <= k < at.0 + at.1 && k < |t.rows| ==> !InRange(digits, t.rows[k])
  }

  predicate HasRow(digits: string, t: Table, row: nat) {
    row < |t.rows| && InRange(digits, t.rows[row])
  }

  datatype Verdict = Inside | TooLow | TooHigh

  /** Compares the digits with one row, digit by digit until both bounds are
      passed or the row ends. */
  method CompareRow(digits: string, r: Range, ghost hyphens: nat, ghost max: nat) returns (v: Verdict)
    requires RowOk(r, hyphens, max) && max <= |digits|
    ensures v.Inside? ==> InRange(digits, r)
    ensures v.TooLow? ==> Before(digits, r)
    ensures v.TooHigh? ==> After(digits, r)
  {
    hide Sign, Slots;
    var lo, hi := r.lower, r.upper;
    var d, e, in1, in2 := 0, 0, false, false;
    SameSlots(r, hyphens, max, |lo|);
    SignNone(digits, lo);
    SignNone(digits, hi);
    while e < |lo|
      invariant e <= |lo| && d == Slots(lo, e) <= |digits| && Slots(hi, e) == d && (e < |lo| ==> lo[e] != '-')
      invariant if in1 then Sign(digits, lo, e) > 0 else Sign(digits, lo, e) == 0
      invariant if in2 then Sign(digits, hi, e) < 0 else Sign(digits, hi, e) == 0
      invariant !(in1 && in2)
    {
      assert SameKind(lo[e], hi[e]);
      SlotsUp(lo, e + 1, |lo|);
      SlotsUp(hi, e + 1, |hi|);
      SignStep(digits, lo, e);
      SignStep(digits, hi, e);
      if (in1 || digits[d] >= lo[e]) && (in2 || digits[d] <= hi[e]) {
        in1, in2 := in1 || digits[d] > lo[e], in2 || digits[d] < hi[e];
        d, e := d + 1, e + 1;
        if in1 && in2 {
          SignStays(digits, lo, e, |lo|);
          SignStays(digits, hi, e, |hi|);
          return Inside;
        }
        if e < |lo| && !IsDigit(lo[e]) {
          assert SameKind(lo[e], hi[e]) && HyphenOk(lo, e);
          SlotsUp(lo, e + 1, |lo|);
          SlotsUp(hi, e + 1, |hi|);
          SignStep(digits, lo, e);
          SignStep(digits, hi, e);
          e := e + 1;
        }
      } else if digits[d] < lo[e] && !in1 {
        SignStays(digits, lo, e + 1, |lo|);
        return TooLow;
      } else {
        SignStays(digits, hi, e + 1, |hi|);
        return TooHigh;
      }
    }
    return Inside;
  }

  lemma SignNone(digits: string, b: string)
    ensures Slots(b, 0) == 0 && Sign(digits, b, 0) == 0
  {
  }

  /** One more character of a bound. */
  lemma SignStep(digits: string, b: string, n: nat)
    requires n < |b| && Slots(b, n + 1) <= |digits|
    ensures Slots(b, n + 1) == Slots(b, n) + if b[n] == '-' then 0 else 1
    ensures b[n] == '-' || Sign(digits, b, n) != 0 ==> Sign(digits, b, n + 1) == Sign(digits, b, n)
    ensures b[n] != '-' && Sign(digits, b, n) == 0 ==>
      var c := digits[Slots(b, n)]; Sign(digits, b, n + 1) == if c < b[n] then -1 else if c > b[n] then 1 else 0
  {
  }

  function FirstDigit(digits: string): nat
    requires digits != [] && IsDigit(digits[0])
    ensures FirstDigit(digits) < 10
  {
    digits[0] as int - '0' as int
  }

  /** Binary search among the rows of the first digit. */
  method FindRow(digits: string, t: Table, ghost hyphens: nat, ghost max: nat) returns (found: bool, row: nat)
    requires TableOk(t, hyphens, max) && max <= |digits| && digits != [] && IsDigit(digits[0])
    ensures found ==> HasRow(digits, t, row)
    ensures !found ==> NoRow(digits, t, max)
  {
    hide RowOk, InRange, Ascending, Before, After;
    var at := t.index[FirstDigit(digits)];
    var lower: int, upper: int := at.0 as int - 1, at.0 + at.1;
    var step := (upper - lower) / 2;
    while step > 0
      invariant at.0 - 1 <= lower < upper <= at.0 + at.1 <= |t.rows| && step == (upper - lower) / 2
      invariant Ascending(t.rows, max) ==> forall k :: at.0 <= k <= lower ==> After(digits, t.rows[k])
      invariant Ascending(t.rows, max) ==> forall k :: upper <= k < at.0 + at.1 ==> Before(digits, t.rows[k])
      decreases upper - lower
    {
      var search := lower + step;
      var v := CompareRow(digits, t.rows[search], hyphens, max);
      if v.Inside? {
        return true, search;
      } else if v.TooLow? {
        BeforeRest(digits, t.rows, search, max);
        upper := search;
      } else {
        BeforeRest(digits, t.rows, search, max);
        lower := search;
      }
      step := (upper - lower) / 2;
    }
    forall k | at.0 <= k < at.0 + at.1 && Ascending(t.rows, max) ensures !InRange(digits, t.rows[k]) {
      assert k <= lower || upper <= k;
      OutOfRange(digits, t.rows[k]);
    }
    return false, 0;
  }

  lemma OutOfRange(digits: string, r: Range)
    ensures Before(digits, r) || After(digits, r) ==> !InRange(digits, r)
  {
  }

  lemma BeforeRest(digits: string, rows: seq<Range>, i: nat, max: nat)
    requires i < |rows| && max <= |digits|
    ensures Ascending(rows, max) && Before(digits, rows[i]) ==> forall k :: i <= k < |rows| ==> Before(digits, rows[k])
    ensures Ascending(rows, max) && After(digits, rows[i]) ==> forall k :: 0 <= k <= i ==> After(digits, rows[k])
  {
    hide Before, After;
  }

  // ----- tables whose rows ascend ---------------------------------------------

  /** A bound without its hyphens. */
  function Bare(p: string, n: nat): (s: string)
    requires n <= |p|
    ensures |s| == Slots(p, n)
  {
    if n == 0 then [] else Bare(p, n - 1) + if p[n - 1] == '-' then [] else [p[n - 1]]
  }

  /** a is smaller at the first place where the two differ. */
  ghost predicate Smaller(a: string, b: string) {
    exists n: nat :: SmallerAt(a, b, n)
  }

  predicate SmallerAt(a: string, b: string, n: nat) {
    n < |a| && n < |b| && a[..n] == b[..n] && a[n] < b[n]
  }

  lemma SmallerTrans(a: string, b: string, c: string)
    requires Smaller(a, b) && Smaller(b, c)
    ensures Smaller(a, c)
  {
    var n: nat :| SmallerAt(a, b, n);
    var m: nat :| SmallerAt(b, c, m);
    var k := if n < m then n else m;
    assert a[..k] == a[..n][..k] == b[..n][..k] == b[..m][..k] == c[..m][..k] == c[..k];
    assert n < m ==> c[..m][n] == b[..m][n];
    assert m < n ==> a[..n][m] == b[..n][m];
    assert SmallerAt(a, c, k);
  }

  /** The comparison with a bound is that of its digits. */
  lemma {:induction false} SignIs(d: string, b: string, n: nat)
    requires n <= |b| && Slots(b, n) <= |d|
    ensures Sign(d, b, n) == 0 ==> d[..Slots(b, n)] == Bare(b, n)
    ensures Sign(d, b, n) < 0 ==> Smaller(d, Bare(b, n))
    ensures Sign(d, b, n) > 0 ==> Smaller(Bare(b, n), d)
  {
    if n > 0 {
      SignIs(d, b, n - 1);
      var k, s, t := Slots(b, n - 1), Bare(b, n - 1), Bare(b, n);
      if b[n - 1] != '-' {
        if Sign(d, b, n - 1) == 0 {
          assert t[..k] == s && d[..k + 1] == d[..k] + [d[k]];
          assert Sign(d, b, n) < 0 ==> SmallerAt(d, t, k);
          assert Sign(d, b, n) > 0 ==> SmallerAt(t, d, k);
        } else if Sign(d, b, n - 1) < 0 {
          var m: nat :| SmallerAt(d, s, m);
          assert t[..m] == s[..m];
          assert SmallerAt(d, t, m);
        } else {
          var m: nat :| SmallerAt(s, d, m);
          assert t[..m] == s[..m];
          assert SmallerAt(t, d, m);
        }
      } else {
        assert t == s;
      }
    }
  }

  lemma SmallerOne(a: string, b: string)
    requires Smaller(a, b)
    ensures !Smaller(b, a)
  {
    var n: nat :| SmallerAt(a, b, n);
    forall m: nat ensures !SmallerAt(b, a, m) {
      SamePlace(a, b, m, n);
      SamePlace(a, b, n, m);
    }
  }

  lemma SamePlace(a: string, b: string, m: nat, n: nat)
    ensures n < m <= |a| && m <= |b| && b[..m] == a[..m] ==> a[n] == b[n]
  {
    if n < m <= |a| && m <= |b| { assert a[..m][n] == a[n] && b[..m][n] == b[n]; }
  }

  lemma SameStart(d: string, s: string)
    requires |s| <= |d| && d[..|s|] == s
    ensures !Smaller(d, s) && !Smaller(s, d)
  {
    forall n: nat ensures !SmallerAt(d, s, n) && !SmallerAt(s, d, n) {
      if n < |s| { assert d[..|s|][n] == s[n]; }
    }
  }

  /** So Before and After are the order of digits. */
  lemma BeforeIs(d: string, r: Range)
    ensures Slots(r.lower, |r.lower|) <= |d| ==> (Before(d, r) <==> Smaller(d, Bare(r.lower, |r.lower|)))
    ensures Slots(r.upper, |r.upper|) <= |d| ==> (After(d, r) <==> Smaller(Bare(r.upper, |r.upper|), d))
  {
    BoundIs(d, r.lower);
    BoundIs(d, r.upper);
  }

  lemma BoundIs(d: string, b: string)
    ensures Slots(b, |b|) <= |d| ==>
      (Sign(d, b, |b|) < 0 <==> Smaller(d, Bare(b, |b|))) && (Sign(d, b, |b|) > 0 <==> Smaller(Bare(b, |b|), d))
  {
    if Slots(b, |b|) <= |d| {
      var s := Bare(b, |b|);
      SignIs(d, b, |b|);
      if Sign(d, b, |b|) == 0 {
        SameStart(d, s);
      } else if Sign(d, b, |b|) < 0 {
        SmallerOne(d, s);
      } else {
        SmallerOne(s, d);
      }
    }
  }

  /** Lower bounds at most the upper ones, and each row wholly below the next. */
  ghost predicate InOrder(rows: seq<Range>) {
    && (forall i :: 0 <= i < |rows| ==> var r := rows[i];
         Bare(r.lower, |r.lower|) == Bare(r.upper, |r.upper|) || Smaller(Bare(r.lower, |r.lower|), Bare(r.upper, |r.upper|)))
    && forall i :: 0 < i < |rows| ==> Follows(rows[i - 1], rows[i])
  }

  ghost predicate Follows(r: Range, s: Range) {
    Smaller(Bare(r.upper, |r.upper|), Bare(s.lower, |s.lower|))
  }

  lemma {:induction false} FollowsAll(rows: seq<Range>, i: nat, j: nat)
    requires InOrder(rows) && i < j < |rows|
    ensures Follows(rows[i], rows[j])
    decreases j
  {
    hide Smaller, Bare;
    assert Follows(rows[j - 1], rows[j]);
    if i < j - 1 {
      FollowsAll(rows, i, j - 1);
      var r := rows[j - 1];
      var u, lo, up, l := Bare(rows[i].upper, |rows[i].upper|), Bare(r.lower, |r.lower|), Bare(r.upper, |r.upper|),
        Bare(rows[j].lower, |rows[j].lower|);
      assert lo == up || Smaller(lo, up);
      if lo != up { SmallerTrans(u, lo, up); }
      SmallerTrans(u, up, l);
    }
  }

  /** Rows in order ascend, whatever their widths. */
  lemma OrderedRowsAscend(rows: seq<Range>, hyphens: nat, max: nat)
    requires InOrder(rows) && forall i :: 0 <= i < |rows| ==> RowOk(rows[i], hyphens, max)
    ensures Ascending(rows, max)
  {
    hide Before, After;
    forall d, i, j | 0 <= i < j < |rows| && max <= |d|
      ensures (Before(d, rows[i]) ==> Before(d, rows[j])) && (After(d, rows[j]) ==> After(d, rows[i]))
    {
      FollowsAll(rows, i, j);
      AscendsOne(d, rows[i], rows[j], hyphens, max);
    }
  }

  lemma AscendsOne(d: string, r: Range, s: Range, hyphens: nat, max: nat)
    requires RowOk(r, hyphens, max) && RowOk(s, hyphens, max) && max <= |d| && Follows(r, s)
    requires Bare(r.lower, |r.lower|) == Bare(r.upper, |r.upper|) || Smaller(Bare(r.lower, |r.lower|), Bare(r.upper, |r.upper|))
    requires Bare(s.lower, |s.lower|) == Bare(s.upper, |s.upper|) || Smaller(Bare(s.lower, |s.lower|), Bare(s.upper, |s.upper|))
    ensures (Before(d, r) ==> Before(d, s)) && (After(d, s) ==> After(d, r))
  {
    SameSlots(r, hyphens, max, |r.lower|);
    SameSlots(s, hyphens, max, |s.lower|);
    BeforeIs(d, r);
    BeforeIs(d, s);
    hide Before, After, Smaller, Bare, Slots;
    var rl, ru, sl, su := Bare(r.lower, |r.lower|), Bare(r.upper, |r.upper|), Bare(s.lower, |s.lower|), Bare(s.upper, |s.upper|);
    if Before(d, r) {
      if rl != ru { SmallerTrans(d, rl, ru); }
      SmallerTrans(d, ru, sl);
    }
    if After(d, s) {
      if sl != su { SmallerTrans(sl, su, d); }
      SmallerTrans(ru, sl, d);
    }
  }

  /** The ISBN rows of registration group 0. */
  function GroupZero(): seq<Range> {
    [Range("0-00", "0-19"), Range("0-200", "0-699"), Range("0-7000", "0-8499"), Range("0-85000", "0-89999"),
     Range("0-900000", "0-949999"), Range("0-9500000", "0-9999999")]
  }

  /** They are of six widths, and ascend. */
  lemma GroupZeroAscends()
    ensures Ascending(GroupZero(), 9) && forall i :: 0 <= i < 6 ==> RowOk(GroupZero()[i], 1, 9)
  {
    hide Slots, Bare, RowOk, Smaller, Ascending, Follows;
    NarrowRows();
    WideRows();
    OrderedRowsAscend(GroupZero(), 1, 9);
  }

  /** A row whose bounds are in order, below another. */
  ghost predicate RowThen(r: Range, s: Range) {
    RowOk(r, 1, 9) && Smaller(Bare(r.lower, |r.lower|), Bare(r.upper, |r.upper|)) && Follows(r, s)
  }

  lemma NarrowRows()
    ensures var r := GroupZero(); RowThen(r[0], r[1]) && RowThen(r[1], r[2]) && RowThen(r[2], r[3])
  {
    hide RowThen;
    var rows := GroupZero();
    Next(rows[0], rows[1], "000", "019", "0200", "0699", 1, 1);
    Next(rows[1], rows[2], "0200", "0699", "07000", "08499", 1, 1);
    Next(rows[2], rows[3], "07000", "08499", "085000", "089999", 1, 2);
  }

  lemma WideRows()
    ensures var r := GroupZero();
      RowThen(r[3], r[4]) && RowThen(r[4], r[5]) && RowThen(r[5], Range("1-00", "1-09"))
  {
    hide RowThen;
    var rows := GroupZero();
    Next(rows[3], rows[4], "085000", "089999", "0900000", "0949999", 2, 1);
    Next(rows[4], rows[5], "0900000", "0949999", "09500000", "09999999", 2, 2);
    Next(rows[5], Range("1-00", "1-09"), "09500000", "09999999", "100", "109", 2, 0);
  }

  /** A row with the digits given, below another that starts higher at place m. */
  lemma Next(r: Range, s: Range, lower: string, upper: string, lower': string, upper': string, n: nat, m: nat)
    requires 1 < |lower| == |upper| <= 9 && AllDigits(lower) && AllDigits(upper)
    requires r.lower == [lower[0]] + "-" + lower[1..] && r.upper == [upper[0]] + "-" + upper[1..]
    requires 1 < |lower'| == |upper'| <= 9 && AllDigits(lower') && AllDigits(upper')
    requires s.lower == [lower'[0]] + "-" + lower'[1..] && s.upper == [upper'[0]] + "-" + upper'[1..]
    requires SmallerAt(lower, upper, n) && SmallerAt(upper, lower', m)
    ensures RowThen(r, s)
  {
    hide RowOk, SmallerAt;
    DashRow(r, lower, upper);
    DashRow(s, lower', upper');
  }

  /** A row with one hyphen, after the first digit. */
  lemma DashRow(r: Range, lower: string, upper: string)
    requires 1 < |lower| == |upper| <= 9 && AllDigits(lower) && AllDigits(upper)
    requires r.lower == [lower[0]] + "-" + lower[1..] && r.upper == [upper[0]] + "-" + upper[1..]
    ensures RowOk(r, 1, 9) && Bare(r.lower, |r.lower|) == lower && Bare(r.upper, |r.upper|) == upper
  {
    hide Slots, Bare;
    DashBare(r.lower, lower, |lower| + 1);
    DashBare(r.upper, upper, |upper| + 1);
    assert lower[..|lower|] == lower && upper[..|upper|] == upper;
    forall i | 0 <= i < |r.lower|
      ensures SameKind(r.lower[i], r.upper[i]) && (r.lower[i] == '-' ==> HyphenOk(r.lower, i))
    {
      DashAt(r.lower, lower, i);
      DashAt(r.upper, upper, i);
    }
  }

  lemma DashAt(p: string, s: string, i: nat)
    requires |s| > 1 && AllDigits(s) && p == [s[0]] + "-" + s[1..] && i < |p|
    ensures if i == 1 then p[i] == '-' && HyphenOk(p, i) else IsDigit(p[i])
  {
    assert i > 1 ==> p[i] == s[i - 1];
    assert p[2] == s[1];
  }

  lemma {:induction false} DashBare(p: string, s: string, n: nat)
    requires |s| > 1 && AllDigits(s) && p == [s[0]] + "-" + s[1..] && 2 <= n <= |p|
    ensures Bare(p, n) == s[..n - 1] && Slots(p, n) == n - 1
  {
    if n == 2 {
      assert Bare(p, 0) == [] && Bare(p, 1) == [s[0]] && Bare(p, 2) == [s[0]];
      assert Slots(p, 0) == 0 && Slots(p, 1) == 1;
    } else {
      DashBare(p, s, n - 1);
      assert p[n - 1] == s[n - 2] && s[..n - 1] == s[..n - 2] + [s[n - 2]];
    }
  }

  // ----- copying in place ----------------------------------------------------

  /** The pattern's hyphens with the characters of s in its other places. */
  function Insert(p: string, s: string, n: nat): (r: string)
    requires n <= |p| && Slots(p, n) <= |s|
    ensures |r| == n
  {
    if n == 0 then []
    else if p[n - 1] == '-' then Insert(p, s, n - 1) + ['-']
    else Insert(p, s, n - 1) + [s[Slots(p, n) - 1]]
  }

  lemma InsertStep(p: string, s: string, n: nat)
    requires n < |p| && Slots(p, n + 1) <= |s|
    ensures Slots(p, n + 1) == Slots(p, n) + if p[n] == '-' then 0 else 1
    ensures Insert(p, s, n + 1) == Insert(p, s, n) + [if p[n] == '-' then '-' else s[Slots(p, n)]]
  {
  }

  /** Moves what starts at i, up to its NUL at end, down to o. */
  method Compress(buf: array<char>, o: nat, i: nat, ghost end: nat) returns (ret: nat)
    requires o <= i <= end < buf.Length && buf[end] == '\0' && forall k :: i <= k < end ==> buf[k] != '\0'
    modifies buf
    ensures ret == end - i + 1
    ensures forall k :: o <= k <= o + end - i ==> buf[k] == old(buf[..])[k + (i - o)]
    ensures forall k :: 0 <= k < o ==> buf[k] == old(buf[k])
  {
    ghost var was := buf[..];
    var n := 0;
    while buf[i + n] != '\0'
      invariant i + n <= end
      invariant forall k :: o <= k < o + n ==> buf[k] == was[k + (i - o)]
      invariant forall k :: i + n <= k <= end ==> buf[k] == was[k]
      invariant forall k :: 0 <= k < o ==> buf[k] == was[k]
      decreases end - n
    {
      buf[o + n] := buf[i + n];
      n := n + 1;
    }
    buf[o + n] := '\0';
    return n + 1;
  }

  /** Copies digits from i to o with the hyphens of a pattern, then a hyphen and
      the character after. Nothing is overwritten before it is read, because the
      pattern has fewer hyphens than the distance moved. */
  method CopyRow(buf: array<char>, o: nat, i: nat, p: string) returns (ret: nat)
    requires |p| - Slots(p, |p|) + 1 <= i - o && i + Slots(p, |p|) < buf.Length
    requires forall k :: i <= k <= i + Slots(p, |p|) ==> buf[k] != '\0'
    modifies buf
    ensures ret == |p| + 1
    ensures forall k :: o <= k < o + |p| ==> buf[k] == Insert(p, old(buf[i..]), |p|)[k - o]
    ensures buf[o + |p|] == '-' && buf[o + |p| + 1] == old(buf[i + Slots(p, |p|)])
    ensures forall k :: 0 <= k < buf.Length && !(o <= k <= o + |p| + 1) ==> buf[k] == old(buf[k])
  {
    ghost var was, done := buf[i..], [];
    var n, r := 0, i;
    SlotsUp(p, 0, |p|);
    assert Slots(p, 0) == 0 && Insert(p, was, 0) == [];
    hide Slots, Insert;
    while n < |p| && buf[r] != '\0'
      invariant n <= |p| && r == i + Slots(p, n) && Slots(p, n) <= Slots(p, |p|)
      invariant n - Slots(p, n) <= |p| - Slots(p, |p|)
      invariant done == Insert(p, was, n) && forall k :: o <= k < o + n ==> buf[k] == done[k - o]
      invariant forall k :: 0 <= k < buf.Length && !(o <= k < o + n) ==> buf[k] == old(buf[k])
    {
      SlotsUp(p, n + 1, |p|);
      InsertStep(p, was, n);
      var c := '-';
      if p[n] != '-' {
        c, r := buf[r], r + 1;
      }
      buf[o + n] := c;
      done := done + [c];
      n := n + 1;
    }
    buf[o + n] := '-';
    buf[o + n + 1] := buf[r];
    return n + 1;
  }
}
