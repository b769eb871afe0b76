/** Printing an EAN13 number in its long form, and reading that form back. */
module IsnPrint {
  import opened IsnHyphen
  import opened IsnEan
  import opened IsnRead

  /** The range tables: country codes, and the further division within some. */
  datatype Tables = Tables(ean13: Table, isbn: Table, isbnNew: Table, issn: Table, ismn: Table, upc: Table)

  /** Country rows are three digits; the other rows have one hyphen and at most
      the nine digits left. */
  predicate TablesOk(t: Tables) {
    && TableOk(t.ean13, 0, 3) && (forall i :: 0 <= i < |t.ean13.rows| ==> |t.ean13.rows[i].lower| == 3)
    && TableOk(t.isbn, 1, 9) && TableOk(t.isbnNew, 1, 9) && TableOk(t.issn, 1, 9) && TableOk(t.ismn, 1, 9)
    && TableOk(t.upc, 1, 9)
  }

  const MAXEAN: nat := 9_999_999_999_999

  lemma MaxIsPower()
    ensures Pow10(13) == MAXEAN + 1
  {
    assert Pow10(3) == 1000;
    assert Pow10(6) == 1000000;
    assert Pow10(9) == 1000000000;
    assert Pow10(12) == 1000000000000;
  }

  // ----- laying out the digits ------------------------------------------------------

  /** Twelve digits from place 3, a hyphen, the check digit, the mark. */
  predicate Laid(buf: seq<char>, n: nat, mark: char) {
    && |buf| == 19 && buf[18] == '\0' && buf[17] == mark && buf[15] == '-' && buf[16] == DigitChar(n % 10)
    && forall p :: 3 <= p < 15 ==> buf[p] == DigitChar(Shift(n, 15 - p) % 10)
  }

  /** The digits from place aux on, and the check digit, are written. */
  predicate LaidFrom(buf: seq<char>, n: nat, mark: char, aux: nat) {
    && |buf| == 19 && buf[18] == '\0' && buf[17] == mark && buf[15] == '-' && buf[16] == DigitChar(n % 10)
    && forall p :: aux <= p < 15 && p >= 3 ==> buf[p] == DigitChar(Shift(n, 15 - p) % 10)
  }

  lemma OneDigit(buf: seq<char>, n: nat, mark: char, aux: nat)
    requires LaidFrom(buf, n, mark, aux) && 2 < aux <= 15
    ensures LaidFrom(buf[aux - 1 := DigitChar(Shift(n, 16 - aux) % 10)], n, mark, aux - 1)
  {
    hide Shift;
  }

  lemma OneZero(buf: seq<char>, n: nat, mark: char, aux: nat)
    requires LaidFrom(buf, n, mark, aux) && 2 < aux <= 15 && (aux > 3 ==> Shift(n, 16 - aux) == 0)
    ensures LaidFrom(buf[aux - 1 := '0'], n, mark, aux - 1)
  {
    if aux > 3 { OneDigit(buf, n, mark, aux); }
    hide Shift;
  }

  /** Writes the digits from the right, then zeros up to and including place 2. */
  method Layout(buf: array<char>, n: nat, mark: char)
    requires buf.Length == 19 && n <= MAXEAN
    modifies buf
    ensures Laid(buf[..], n, mark)
  {
    buf[18], buf[17], buf[16], buf[15] := '\0', mark, DigitChar(n % 10), '-';
    var ean, aux, search := n / 10, 15, 0;
    MaxIsPower();
    ShiftGone(n, 13);
    assert ean == Shift(n, search + 1);
    assert LaidFrom(buf[..], n, mark, aux);
    hide LaidFrom;
    while ean != 0 && search < 13
      invariant 3 <= aux <= 15 && search == 15 - aux && ean == Shift(n, search + 1)
      invariant LaidFrom(buf[..], n, mark, aux)
    {
      assert search < 12;
      OneDigit(buf[..], n, mark, aux);
      aux := aux - 1;
      buf[aux] := DigitChar(ean % 10);
      ean := ean / 10;
      search := search + 1;
    }
    FillZeros(buf, n, mark, aux, search);
  }

  /** Writes the zeros before the digits. */
  method FillZeros(buf: array<char>, n: nat, mark: char, start: nat, from: nat)
    requires buf.Length == 19 && 3 <= start <= 15 && from == 15 - start && Shift(n, from + 1) == 0
    requires LaidFrom(buf[..], n, mark, start)
    modifies buf
    ensures Laid(buf[..], n, mark)
  {
    var aux, search := start, from;
    while search < 13
      invariant 2 <= aux <= 15 && search == 15 - aux && (search <= 12 ==> Shift(n, search + 1) == 0)
      invariant LaidFrom(buf[..], n, mark, aux)
    {
      OneZero(buf[..], n, mark, aux);
      hide LaidFrom;
      aux := aux - 1;
      buf[aux] := '0';
      search := search + 1;
    }
  }

  lemma LaidDigits(buf: seq<char>, n: nat, mark: char)
    requires Laid(buf, n, mark)
    ensures buf[3..15] == Digits(n, 13)[..12] && buf[16] == Digits(n, 13)[12]
  {
    forall j | 0 <= j < 13 ensures Digits(n, 13)[j] == DigitChar(Shift(n, 12 - j) % 10) {
      DigitAt(n, 13, j);
    }
  }

  // ----- what the text shows ----------------------------------------------------------

  /** The digits of a text, in order. */
  function DigitsIn(s: string): string {
    if s == [] then [] else DigitsIn(s[..|s| - 1]) + if IsDigit(s[|s| - 1]) then [s[|s| - 1]] else []
  }

  predicate Plain(s: string) {
    forall i :: 0 <= i < |s| ==> IsDigit(s[i]) || s[i] == '-'
  }

  function Mark(flag: bool): string {
    if flag then "!" else ""
  }

  /** Digits and hyphens ending in a digit, with exactly the digits ds. */
  predicate Shows(body: string, ds: string) {
    body != [] && Plain(body) && IsDigit(body[|body| - 1]) && DigitsIn(body) == ds
  }

  lemma {:induction false} DigitsInJoin(a: string, b: string)
    ensures DigitsIn(a + b) == DigitsIn(a) + DigitsIn(b)
    decreases |b|
  {
    if b == [] {
      assert a + b == a;
    } else {
      assert (a + b)[..|a + b| - 1] == a + b[..|b| - 1];
      DigitsInJoin(a, b[..|b| - 1]);
    }
  }

  lemma {:induction false} DigitsInDigits(s: string)
    requires AllDigits(s)
    ensures DigitsIn(s) == s && Plain(s)
  {
    if s != [] {
      DigitsInDigits(s[..|s| - 1]);
      assert s == s[..|s| - 1] + [s[|s| - 1]];
    }
  }

  lemma OneMore(a: string, c: char)
    requires Plain(a) && (IsDigit(c) || c == '-')
    ensures Plain(a + [c]) && DigitsIn(a + [c]) == DigitsIn(a) + if IsDigit(c) then [c] else []
  {
    assert (a + [c])[..|a|] == a;
  }

  /** Inserting hyphens neither drops nor adds nor moves a digit. */
  lemma {:induction false} InsertKeeps(p: string, s: string, n: nat)
    requires n <= |p| && Slots(p, n) <= |s| && AllDigits(s)
    ensures DigitsIn(Insert(p, s, n)) == s[..Slots(p, n)] && Plain(Insert(p, s, n))
  {
    if n > 0 {
      InsertKeeps(p, s, n - 1);
      InsertStep(p, s, n - 1);
      var k := Slots(p, n);
      if p[n - 1] != '-' { assert s[..k] == s[..k - 1] + [s[k - 1]]; }
      hide Insert, DigitsIn, Plain, Slots;
      OneMore(Insert(p, s, n - 1), if p[n - 1] == '-' then '-' else s[k - 1]);
    }
  }

  lemma {:induction false} InsertPlain(p: string, s: string, n: nat)
    requires n <= |p| && Slots(p, |p|) == |p| && n <= |s|
    ensures Slots(p, n) == n && Insert(p, s, n) == s[..n]
  {
    SlotsUp(p, n, |p|);
    if n > 0 {
      InsertPlain(p, s, n - 1);
      assert s[..n] == s[..n - 1] + [s[n - 1]];
    }
  }

  lemma {:induction false} InsertReads(p: string, s: string, t: string, n: nat)
    requires n <= |p| && Slots(p, n) <= |s| <= |t| && t[..|s|] == s
    ensures Insert(p, t, n) == Insert(p, s, n)
  {
    if n > 0 {
      SlotsUp(p, n - 1, n);
      InsertReads(p, s, t, n - 1);
      if p[n - 1] != '-' { assert t[..|s|][Slots(p, n) - 1] == s[Slots(p, n) - 1]; }
    }
  }

  lemma HyphenJoin(a: string, b: string)
    requires Plain(a) && Plain(b)
    ensures Plain(a + "-" + b) && DigitsIn(a + "-" + b) == DigitsIn(a) + DigitsIn(b)
  {
    DigitsInJoin(a, "-");
    DigitsInJoin(a + "-", b);
    OneChar('-');
    hide DigitsIn;
  }

  /** A number in parts between hyphens, before its check digit. */
  lemma ShowsParts(a: string, b: string, c: char)
    requires Plain(a) && Plain(b) && IsDigit(c)
    ensures Shows(a + "-" + b + "-" + [c], DigitsIn(a) + DigitsIn(b) + [c])
  {
    hide DigitsIn, Plain, Shows;
    HyphenJoin(a, b);
    ShowsWhole(a + "-" + b, c);
  }

  lemma OneChar(c: char)
    ensures DigitsIn([c]) == if IsDigit(c) then [c] else []
  {
    assert [c][..0] == [];
  }

  lemma ShowsWhole(a: string, c: char)
    requires Plain(a) && IsDigit(c)
    ensures Shows(a + "-" + [c], DigitsIn(a) + [c])
  {
    DigitsInJoin(a, "-");
    DigitsInJoin(a + "-", [c]);
    OneChar('-');
    OneChar(c);
    hide DigitsIn;
  }

  // ----- the printer ------------------------------------------------------------------

  /** Reads the buffer as a text: up to its first NUL. */
  method TextOf(buf: array<char>, ghost e: nat) returns (text: string)
    requires e < buf.Length && buf[e] == '\0' && forall k :: 0 <= k < e ==> buf[k] != '\0'
    ensures text == buf[..e]
  {
    var n := 0;
    while buf[n] != '\0'
      invariant n <= e
      decreases e - n
    {
      n := n + 1;
    }
    text := buf[..n];
  }

  /** The table for the further division, chosen by the first digits, of which the
      buffer has three, a hyphen and the next. */
  function TableFor(t: Tables, b: seq<char>): (r: Option)
    requires |b| == 19 && TablesOk(t)
    ensures r.Some? ==> TableOk(r.table, 1, 9)
  {
    if b[..4] == "978-" then Some(t.isbn)
    else if b[..4] == "977-" then Some(t.issn)
    else if b[..5] == "979-0" then Some(t.ismn)
    else if b[..4] == "979-" then Some(t.isbnNew)
    else if b[0] == '0' then Some(t.upc)
    else None
  }

  /** The table of the kind that the first digits say. */
  function TableOf(t: Tables, ds: string): Option
    requires |ds| == 13
  {
    match SubKind(ds)
    case Isbn => Some(if ds[..3] == "978" then t.isbn else t.isbnNew)
    case Issn => Some(t.issn)
    case Ismn => Some(t.ismn)
    case Upc => Some(t.upc)
    case Ean | Unknown => None
  }

  lemma TableChosen(t: Tables, b: seq<char>, ds: string)
    requires |b| == 19 && TablesOk(t) && |ds| == 13 && AllDigits(ds) && b[..4] == ds[..3] + "-" && b[4] == ds[3]
    ensures TableFor(t, b) == TableOf(t, ds)
  {
    hide TableOk, TablesOk;
    SameHead(b, ds, "978");
    SameHead(b, ds, "977");
    SameHead(b, ds, "979");
    assert b[0] == b[..4][0] == ds[0];
    Triple(ds, "978");
    Triple(ds, "977");
    Triple(ds, "979");
  }

  lemma SameHead(b: seq<char>, ds: string, p: string)
    requires |b| == 19 && |ds| == 13 && |p| == 3 && b[..4] == ds[..3] + "-" && b[4] == ds[3]
    ensures b[..4] == p + "-" <==> ds[..3] == p
    ensures b[..5] == p + "-0" <==> ds[..4] == p + "0"
  {
    assert b[..5] == b[..4] + [b[4]] && ds[..4] == ds[..3] + [ds[3]];
    assert (p + "-")[..3] == p && (ds[..3] + "-")[..3] == ds[..3];
    assert p + "-0" == (p + "-") + "0" && (p + "-0")[..4] == p + "-" && (p + "0")[..3] == p;
  }

  lemma Triple(s: string, p: string)
    requires |s| >= 4 && |p| == 3
    ensures s[..3] == p <==> s[0] == p[0] && s[1] == p[1] && s[2] == p[2]
    ensures s[3] == '-' ==> (s[..4] == p + "-" <==> s[..3] == p)
    ensures s[..4] == p + "0" <==> s[..3] == p && s[3] == '0'
  {
    assert s[..4] == s[..3] + [s[3]];
    assert s[..3] == [s[0], s[1], s[2]] && p == [p[0], p[1], p[2]];
  }

  // The three ways the thirteen digits are printed.

  function Whole(ds: string): string
    requires |ds| == 13
  {
    ds[..12] + "-" + [ds[12]]
  }

  function Parts(ds: string): string
    requires |ds| == 13
  {
    ds[..3] + "-" + ds[3..12] + "-" + [ds[12]]
  }

  function PartsBy(ds: string, p: string): string
    requires |ds| == 13 && Slots(p, |p|) <= 9
  {
    ds[..3] + "-" + (Insert(p, ds[3..12], |p|) + "-" + ds[3 + Slots(p, |p|)..12]) + "-" + [ds[12]]
  }

  /** The body is divided by the rows the digits fall in: whole when no country row
      is for them, else after three digits, and after the places of a row of the table
      for their kind if there is one. */
  ghost predicate Divides(body: string, ds: string, t: Tables, country: bool)
    requires |ds| == 13 && AllDigits(ds) && TablesOk(t)
  {
    if country then (exists c: nat :: HasRow(ds[..12], t.ean13, c)) && DividesRest(body, ds, TableOf(t, ds))
    else NoRow(ds[..12], t.ean13, 3) && body == Whole(ds)
  }

  ghost predicate DividesRest(body: string, ds: string, table: Option)
    requires |ds| == 13 && AllDigits(ds) && (table.Some? ==> TableOk(table.table, 1, 9))
  {
    || ((table.Some? ==> NoRow(ds[3..12], table.table, 9)) && body == Parts(ds))
    || (table.Some? && exists r: nat :: DividesBy(body, ds, table.table, r))
  }

  predicate DividesBy(body: string, ds: string, table: Table, r: nat)
    requires |ds| == 13 && TableOk(table, 1, 9)
  {
    HasRow(ds[3..12], table, r) && RowOk(table.rows[r], 1, 9) && body == PartsBy(ds, table.rows[r].lower)
  }

  datatype Option = None | Some(table: Table)

  /** The place of the terminator: after the mark if there is one. */
  function EndOf(flag: bool): nat {
    if flag then 18 else 17
  }

  function MarkChar(flag: bool): char {
    if flag then '!' else '\0'
  }

  /** The parts of a laid out number from place p on: digits to 15, hyphen, check
      digit, mark, end. */
  predicate TailIs(b: seq<char>, p: nat, ds: string, flag: bool) {
    && |b| == 19 && |ds| == 13 && AllDigits(ds) && 3 <= p <= 15 && b[p..15] == ds[p - 3..12] && b[15] == '-'
    && b[16] == ds[12] && b[17] == MarkChar(flag) && b[18] == '\0'
  }

  /** Nothing to divide: the number is moved to the front whole. */
  method PrintWhole(buf: array<char>, ghost ds: string, flag: bool) returns (text: string)
    requires buf.Length == 19 && TailIs(buf[..], 3, ds, flag)
    modifies buf
    ensures text == ds[..12] + "-" + [ds[12]] + Mark(flag)
  {
    ghost var was, e := buf[..], EndOf(flag);
    NoNulInTail(was, 3, ds, flag);
    var _ := Compress(buf, 0, 3, e);
    forall k | 0 <= k < e - 3 ensures buf[k] != '\0' {
      assert buf[k] == was[k + 3];
    }
    assert buf[e - 3] == was[e];
    text := TextOf(buf, e - 3);
    assert text == was[3..e];
    assert was[3..e] == was[3..15] + was[15..16] + was[16..17] + was[17..e];
  }

  lemma NoNulInTail(b: seq<char>, p: nat, ds: string, flag: bool)
    requires TailIs(b, p, ds, flag)
    ensures b[EndOf(flag)] == '\0' && forall k :: p <= k < EndOf(flag) ==> b[k] != '\0'
  {
    forall k | p <= k < 15 ensures b[k] != '\0' {
      assert b[k] == b[p..15][k - p];
      assert b[p..15][k - p] == ds[k - 3];
    }
  }

  /** The first three digits stand in front, with a hyphen; the rest is moved up
      behind it. */
  method PrintParts(buf: array<char>, ghost ds: string, flag: bool) returns (text: string)
    requires buf.Length == 19 && TailIs(buf[..], 6, ds, flag) && buf[..4] == ds[..3] + "-"
    modifies buf
    ensures text == ds[..3] + "-" + ds[3..12] + "-" + [ds[12]] + Mark(flag)
  {
    ghost var was, e := buf[..], EndOf(flag);
    NoNulInTail(was, 6, ds, flag);
    HeadHasNoNul(was, ds);
    var _ := Compress(buf, 4, 6, e);
    forall k | 0 <= k < e - 2 ensures buf[k] != '\0' {
      assert buf[k] == if k < 4 then was[k] else was[k + 2];
    }
    assert buf[e - 2] == was[e];
    text := TextOf(buf, e - 2);
    assert text[..4] == was[..4] && text[4..] == was[6..e];
    assert was[6..e] == was[6..15] + was[15..16] + was[16..17] + was[17..e];
    Rejoin(text, ds[..3], ds[3..12], [ds[12]], Mark(flag));
  }

  lemma Rejoin(text: string, a: string, b: string, c: string, m: string)
    requires |text| >= 4 && text[..4] == a + "-" && text[4..] == b + "-" + c + m
    ensures text == a + "-" + b + "-" + c + m
  {
    assert text == text[..4] + text[4..];
  }

  lemma HeadHasNoNul(b: seq<char>, ds: string)
    requires |b| == 19 && |ds| == 13 && AllDigits(ds) && b[..4] == ds[..3] + "-"
    ensures forall k :: 0 <= k < 4 ==> b[k] != '\0'
  {
    forall k | 0 <= k < 4 ensures b[k] != '\0' {
      assert b[k] == b[..4][k];
      if k < 3 { assert b[..4][k] == ds[k]; }
    }
  }

  /** The rest is divided once more by a row's pattern; the two hyphens make up
      for the two places it was moved. */
  method PrintDivided(buf: array<char>, ghost ds: string, flag: bool, p: string) returns (text: string)
    requires buf.Length == 19 && TailIs(buf[..], 6, ds, flag) && buf[..4] == ds[..3] + "-"
    requires |p| == Slots(p, |p|) + 1 && Slots(p, |p|) <= 9
    modifies buf
    ensures |text| <= 18
    ensures var k := Slots(p, |p|);
      text == ds[..3] + "-" + (Insert(p, ds[3..12], |p|) + "-" + ds[3 + k..12]) + "-" + [ds[12]] + Mark(flag)
  {
    ghost var was, e, ins := buf[..], EndOf(flag), Insert(p, ds[3..12], |p|);
    var k := Slots(p, |p|);
    hide TailIs, Insert, Slots;
    BeforeDivide(was, ds, flag, p);
    var _ := CopyRow(buf, 4, 6, p);
    ghost var b := buf[..];
    assert b[6 + k] == was[6 + k];
    assert Divided(was, b, ins, k);
    DividedNoNul(was, b, ds, flag, ins, k);
    text := TextOf(buf, e);
    DividedText(was, b, ds, flag, ins, k);
  }

  lemma BeforeDivide(was: seq<char>, ds: string, flag: bool, p: string)
    requires TailIs(was, 6, ds, flag) && Slots(p, |p|) <= 9
    ensures forall j :: 6 <= j <= 6 + Slots(p, |p|) ==> was[j] != '\0'
    ensures Insert(p, was[6..], |p|) == Insert(p, ds[3..12], |p|) && Plain(Insert(p, ds[3..12], |p|))
  {
    hide Insert, Slots, Plain;
    NoNulInTail(was, 6, ds, flag);
    assert was[6..][..9] == was[6..15];
    InsertReads(p, ds[3..12], was[6..], |p|);
    InsertKeeps(p, ds[3..12], |p|);
  }

  /** b is was with ins put in from place 4 and a hyphen after it. */
  predicate Divided(was: seq<char>, b: seq<char>, ins: string, k: nat) {
    && |was| == |b| == 19 && |ins| == k + 1 <= 10 && b[5 + k] == '-'
    && (forall j :: 0 <= j < 4 ==> b[j] == was[j])
    && (forall j :: 4 <= j < 5 + k ==> b[j] == ins[j - 4])
    && (forall j :: 6 + k <= j < 19 ==> b[j] == was[j])
  }

  lemma DividedNoNul(was: seq<char>, b: seq<char>, ds: string, flag: bool, ins: string, k: nat)
    requires TailIs(was, 6, ds, flag) && was[..4] == ds[..3] + "-" && Divided(was, b, ins, k) && Plain(ins)
    ensures b[EndOf(flag)] == '\0' && forall j :: 0 <= j < EndOf(flag) ==> b[j] != '\0'
  {
    NoNulInTail(was, 6, ds, flag);
    HeadHasNoNul(was, ds);
    hide TailIs;
    forall j | 0 <= j < EndOf(flag) ensures b[j] != '\0' {
      if 4 <= j < 5 + k { assert b[j] == ins[j - 4]; }
    }
  }

  lemma DividedText(was: seq<char>, b: seq<char>, ds: string, flag: bool, ins: string, k: nat)
    requires TailIs(was, 6, ds, flag) && was[..4] == ds[..3] + "-" && Divided(was, b, ins, k)
    ensures b[..EndOf(flag)] == ds[..3] + "-" + (ins + "-" + ds[3 + k..12]) + "-" + [ds[12]] + Mark(flag)
  {
    var text := b[..EndOf(flag)];
    assert text[..4] == was[..4];
    assert text[4..5 + k] == ins;
    assert text[6 + k..15] == was[6..15][k..];
    assert was[6..15][k..] == ds[3 + k..12];
    assert text[15..] == "-" + [ds[12]] + Mark(flag);
    Reassemble(text, ds[..3], ins, ds[3 + k..12], [ds[12]], Mark(flag), k);
  }

  lemma Reassemble(text: string, a: string, ins: string, rest: string, c: string, m: string, k: nat)
    requires k <= 9 && |text| >= 15 && |ins| == k + 1 && text[..4] == a + "-" && text[4..5 + k] == ins
    requires text[5 + k] == '-' && text[6 + k..15] == rest && text[15..] == "-" + c + m
    ensures text == a + "-" + (ins + "-" + rest) + "-" + c + m
  {
    assert text[4..15] == ins + "-" + rest;
    assert text == text[..4] + text[4..15] + text[15..];
  }

  /** A text, and whether the first three digits are those of a country row. */
  datatype Printed = OutOfRange | Text(text: string, country: bool)

  /** The body shows the digits, divided as the tables say. */
  ghost predicate IsBody(body: string, ds: string, t: Tables, country: bool)
    requires |ds| == 13 && AllDigits(ds) && TablesOk(t)
  {
    Shows(body, ds) && Divides(body, ds, t, country)
  }

  /** Prints a number in its long form. */
  method EanToString(ean: nat, t: Tables) returns (r: Printed)
    requires TablesOk(t)
    ensures r.OutOfRange? <==> ean / 2 > MAXEAN
    ensures r.Text? ==> |r.text| <= 18
    ensures r.Text? ==>
      exists body :: r.text == body + Mark(ean % 2 == 1) && IsBody(body, Digits(ean / 2, 13), t, r.country)
  {
    var flag, n := ean % 2 == 1, ean / 2;
    if n > MAXEAN {
      return OutOfRange;
    }
    var buf := new char[19](_ => ' ');
    Layout(buf, n, MarkChar(flag));
    ghost var ds := Digits(n, 13);
    LaidDigits(buf[..], n, MarkChar(flag));
    assert TailIs(buf[..], 3, ds, flag);
    hide Laid, Digits, TablesOk, TableOk, Shows, Divides;
    var text, country := Hyphenated(buf, ds, flag, t);
    return Text(text, country);
  }

  method Hyphenated(buf: array<char>, ghost ds: string, flag: bool, t: Tables) returns (text: string, found: bool)
    requires buf.Length == 19 && TailIs(buf[..], 3, ds, flag) && TablesOk(t)
    modifies buf
    ensures |text| <= 18 && exists body :: text == body + Mark(flag) && IsBody(body, ds, t, found)
  {
    hide NoRow, HasRow, TableOf, DividesRest, Shows;
    assert buf[3..15] == ds[..12];
    assert buf[3..15][0] == ds[0];
    var row;
    found, row := FindRow(buf[3..15], t.ean13, 0, 3);
    if !found {
      text := PrintWhole(buf, ds, flag);
      WholeShows(ds);
      assert IsBody(Whole(ds), ds, t, false);
      return;
    }
    HasRowIn(ds[..12], t.ean13, row);
    Country(buf, ds, flag, t.ean13.rows[row].lower);
    TableChosen(t, buf[..], ds);
    hide TablesOk;
    var table := TableFor(t, buf[..]);
    text := Divide(buf, ds, flag, table);
    ghost var body :| text == body + Mark(flag) && Shows(body, ds) && DividesRest(body, ds, table);
    assert IsBody(body, ds, t, true);
  }

  /** Puts the first three digits in front, with a hyphen. */
  method Country(buf: array<char>, ghost ds: string, ghost flag: bool, p: string)
    requires buf.Length == 19 && TailIs(buf[..], 3, ds, flag) && |p| == 3 && Slots(p, 3) == 3
    modifies buf
    ensures TailIs(buf[..], 6, ds, flag) && buf[..4] == ds[..3] + "-" && buf[4] == ds[3]
  {
    ghost var was := buf[..];
    NoNulInTail(was, 3, ds, flag);
    InsertPlain(p, was[3..], 3);
    var _ := CopyRow(buf, 0, 3, p);
    assert was[3..][..3] == was[3..15][..3] == ds[..3];
    assert buf[..3] == ds[..3];
    assert buf[..4] == buf[..3] + [buf[3]];
    assert buf[6..15] == was[6..15] == was[3..15][3..] == ds[3..12];
    assert was[3..15][3] == ds[3];
  }

  lemma HasRowIn(digits: string, t: Table, row: nat)
    requires HasRow(digits, t, row)
    ensures row < |t.rows|
  {
  }

  /** Prints what follows the first three digits by the table, if one has a row. */
  method Divide(buf: array<char>, ghost ds: string, flag: bool, table: Option) returns (text: string)
    requires buf.Length == 19 && TailIs(buf[..], 6, ds, flag) && buf[..4] == ds[..3] + "-"
    requires table.Some? ==> TableOk(table.table, 1, 9)
    modifies buf
    ensures |text| <= 18 && exists body :: text == body + Mark(flag) && Shows(body, ds) && DividesRest(body, ds, table)
  {
    hide NoRow, HasRow, Shows;
    if table.Some? {
      assert buf[6..15] == ds[3..12];
      assert buf[6..15][0] == ds[3];
      var found, row := FindRow(buf[6..15], table.table, 1, 9);
      if found {
        HasRowIn(ds[3..12], table.table, row);
        ghost var p := table.table.rows[row].lower;
        assert RowOk(table.table.rows[row], 1, 9);
        text := PrintDivided(buf, ds, flag, table.table.rows[row].lower);
        DividedShows(ds, p);
        assert DividesBy(PartsBy(ds, p), ds, table.table, row);
        assert DividesRest(PartsBy(ds, p), ds, table);
        return;
      }
    }
    text := PrintParts(buf, ds, flag);
    PartsShow(ds);
    assert DividesRest(Parts(ds), ds, table);
  }

  lemma WholeShows(ds: string)
    requires |ds| == 13 && AllDigits(ds)
    ensures Shows(ds[..12] + "-" + [ds[12]], ds)
  {
    DigitsInDigits(ds[..12]);
    ShowsWhole(ds[..12], ds[12]);
    assert ds == ds[..12] + [ds[12]];
  }

  lemma PartsShow(ds: string)
    requires |ds| == 13 && AllDigits(ds)
    ensures Shows(ds[..3] + "-" + ds[3..12] + "-" + [ds[12]], ds)
  {
    DigitsInDigits(ds[..3]);
    DigitsInDigits(ds[3..12]);
    ShowsParts(ds[..3], ds[3..12], ds[12]);
    assert ds == ds[..3] + ds[3..12] + [ds[12]];
  }

  lemma DividedShows(ds: string, p: string)
    requires |ds| == 13 && AllDigits(ds) && Slots(p, |p|) <= 9
    ensures Shows(ds[..3] + "-" + (Insert(p, ds[3..12], |p|) + "-" + ds[3 + Slots(p, |p|)..12]) + "-" + [ds[12]], ds)
  {
    hide DigitsIn, Plain, Shows, Insert, Slots;
    var k, mid := Slots(p, |p|), ds[3..12];
    var ins, rest := Insert(p, mid, |p|), ds[3 + k..12];
    InsertKeeps(p, mid, |p|);
    DigitsInDigits(ds[..3]);
    DigitsInDigits(rest);
    HyphenJoin(ins, rest);
    ShowsParts(ds[..3], ins + "-" + rest, ds[12]);
    SplitDigits(ds, k);
  }

  lemma SplitDigits(ds: string, k: nat)
    requires |ds| == 13 && k <= 9
    ensures ds[..3] + (ds[3..12][..k] + ds[3 + k..12]) + [ds[12]] == ds
  {
    assert ds[3..12][..k] + ds[3 + k..12] == ds[3..12];
  }

  // ----- the round trip -----------------------------------------------------------------

  /** A character of the body adds its digit to what was read. */
  lemma TakesBody(s: string, body: string, ds: string, flag: bool, i: nat)
    requires s == body + Mark(flag) && Shows(body, ds) && |ds| == 13 && i < |body|
    ensures At(s, i) != '\0' && |DigitsIn(body[..i])| < 13
    ensures Take(s, i, DigitsIn(body[..i]), Unknown, false, true) == Scanned(DigitsIn(body[..i + 1]), Unknown, false, true)
  {
    assert body[..i + 1][..i] == body[..i];
    PrefixDigitsIn(body, i + 1);
    PrefixDigitsIn(body, i);
    assert s[i] == body[i];
    if i + 1 < |body| {
      assert s[i + 1] == body[i + 1];
    } else {
      assert body[..i + 1] == body;
    }
  }

  /** The digits of a beginning are fewer, unless nothing but hyphens is left. */
  lemma {:induction false} PrefixDigitsIn(s: string, i: nat)
    requires i <= |s|
    ensures |DigitsIn(s[..i])| <= |DigitsIn(s)|
    ensures i < |s| && IsDigit(s[|s| - 1]) ==> |DigitsIn(s[..i])| < |DigitsIn(s)|
    decreases |s| - i
  {
    if i == |s| {
      assert s[..i] == s;
    } else {
      PrefixDigitsIn(s[..|s| - 1], i);
      assert s[..|s| - 1][..i] == s[..i];
    }
  }

  lemma {:induction false} ScansBody(s: string, body: string, ds: string, flag: bool, i: nat)
    requires s == body + Mark(flag) && Shows(body, ds) && |ds| == 13 && i <= |body|
    ensures Scan(s, i, DigitsIn(body[..i]), Unknown, false, true) == Scan(s, |body|, ds, Unknown, false, true)
    decreases |body| - i
  {
    if i == |body| {
      assert body[..i] == body;
    } else {
      TakesBody(s, body, ds, flag, i);
      ScanStep(s, i, DigitsIn(body[..i]), Unknown, false, true);
      hide Scan, Take, DigitsIn, Shows;
      ScansBody(s, body, ds, flag, i + 1);
    }
  }

  lemma ScansMark(s: string, body: string, ds: string, flag: bool)
    requires s == body + Mark(flag) && |ds| == 13
    ensures Scan(s, |body|, ds, Unknown, false, true) == Scanned(ds, Unknown, flag, !flag)
  {
    if flag {
      assert At(s, |body|) == '!' && At(s, |body| + 1) == '\0';
      ScanStep(s, |body|, ds, Unknown, false, true);
      ScanEnd(s, |body| + 1, ds, Unknown, true, false);
    } else {
      ScanEnd(s, |body|, ds, Unknown, false, true);
    }
  }

  lemma CheckedLead(ds: string)
    requires Checked(ds)
    ensures WithCheck(ds[..12]) == ds && CheckDigit(ds[..12]) == GivenCheck(ds[12])
  {
    CheckedIff(ds);
    assert ds[..12][..12] == ds[..12];
    WeightedPrefix(ds, ds[..12], 12);
    assert ds == ds[..12] + [ds[12]];
  }

  lemma FinishesChecked(ds: string, flag: bool, a: Accept, weak: bool)
    requires Checked(ds)
    ensures KindOf(ds, Unknown) == Ean && Lead(ds, Unknown) == ds[..12]
    ensures Finish(Scanned(ds, Unknown, flag, !flag), a, weak) ==
      if Accepted(a, Ean, ds[..12]) then Number(2 * Value(ds) + if flag then 1 else 0) else Failed(WrongType)
  {
    CheckedLead(ds);
    hide Value, Checked, CheckDigit, WithCheck, Accepted;
    assert CheckFits(ds, Unknown);
  }

  /** Any text that shows thirteen digits with a right check digit, and an
      exclamation mark or not, is read as that number by the readers of any kind and
      of EAN13, and by the reader of the kind its first digits say. */
  lemma ReadsBack(body: string, ds: string, flag: bool, a: Accept, weak: bool)
    requires Shows(body, ds) && Checked(ds)
    ensures StringToEan(body + Mark(flag), a, weak) ==
      if Accepted(a, Ean, ds[..12]) then Number(2 * Value(ds) + if flag then 1 else 0) else Failed(WrongType)
  {
    var s := body + Mark(flag);
    assert body[..0] == [] && DigitsIn([]) == [];
    ScansBody(s, body, ds, flag, 0);
    ScansMark(s, body, ds, flag);
    FinishesChecked(ds, flag, a, weak);
    hide Scan, Finish, Shows, Checked, DigitsIn, Accepted;
  }

  /** Printing a number and reading the text gives the number back, flag and all, to
      every reader that accepts its kind, and to no other. */
  method RoundTrip(ean: nat, t: Tables, a: Accept, weak: bool) returns (r: Outcome)
    requires TablesOk(t) && ean / 2 <= MAXEAN && Checked(Digits(ean / 2, 13))
    ensures r == if Accepted(a, Ean, Digits(ean / 2, 13)[..12]) then Number(ean) else Failed(WrongType)
  {
    hide TablesOk, Checked, Shows, Digits, StringToEan, Divides, Accepted;
    var p := EanToString(ean, t);
    ghost var ds, flag := Digits(ean / 2, 13), ean % 2 == 1;
    ghost var body :| p.text == body + Mark(flag) && IsBody(body, ds, t, p.country);
    ReadsBack(body, ds, flag, a, weak);
    MaxIsPower();
    DigitsValue(ean / 2, 13);
    r := ReadEan(p.text, a, weak);
  }
}
