/** The short forms of numbers with a kind of their own, and which numbers survive
    printing in them and reading back. */
module IsnShort {
  import opened IsnHyphen
  import opened IsnEan
  import opened IsnRead
  import opened IsnPrint

  // ----- the short forms -------------------------------------------------------------

  function CheckChar(c: nat): char
    requires c <= 10
  {
    if c == 10 then 'X' else DigitChar(c)
  }

  /** Replaces the last digit of a text. */
  function SetLastDigit(s: string, c: char): string {
    if s == [] then []
    else if IsDigit(s[|s| - 1]) then s[..|s| - 1] + [c]
    else SetLastDigit(s[..|s| - 1], c) + [s[|s| - 1]]
  }

  /** Numbers from 978 lose that and get the check digit of old. */
  function ShortIsbn(text: string): string
    requires |text| >= 4 && |DigitsIn(text[4..])| >= 9 && AllDigits(DigitsIn(text[4..]))
  {
    if text[..4] == "978-" then SetLastDigit(text[4..], CheckChar(WeightCheck(DigitsIn(text[4..]), 10))) else text
  }

  /** The letter M stands for 979-0. */
  function ShortIsmn(text: string): string
    requires |text| >= 5
  {
    "M" + text[5..]
  }

  /** Eight places of what follows 977 and a check digit; the rest is dropped. */
  function ShortIssn(text: string): string
    requires |text| >= 12 && |DigitsIn(text[4..])| >= 7 && AllDigits(DigitsIn(text[4..]))
  {
    text[4..12] + [CheckChar(WeightCheck(DigitsIn(text[4..]), 8))]
  }

  /** Twelve digits after the first zero. */
  function ShortUpc(text: string): string
    requires |text| >= 1
  {
    var s := DigitsIn(text[1..]);
    if |s| <= 12 then s else s[..12]
  }

  /** What the output function makes of the long form. A number without a country row
      has no kind, and keeps it. */
  function Short(text: string, ds: string, country: bool): string
    requires |ds| == 13
    requires country ==> |text| >= 12 && |DigitsIn(text[4..])| >= 9 && AllDigits(DigitsIn(text[4..]))
  {
    if !country then text
    else match SubKind(ds)
         case Isbn => ShortIsbn(text)
         case Ismn => ShortIsmn(text)
         case Issn => ShortIssn(text)
         case Upc => ShortUpc(text)
         case Ean | Unknown => text
  }

  // ----- where the digits are in the long form -----------------------------------------

  lemma {:induction false} AllDigitsIn(s: string)
    ensures AllDigits(DigitsIn(s))
  {
    if s != [] { AllDigitsIn(s[..|s| - 1]); }
  }

  /** A body divided after three digits: those, a hyphen, the middle with the next nine
      digits, and the check digit. */
  ghost predicate InParts(body: string, ds: string, mid: string) {
    && |ds| == 13 && AllDigits(ds) && body == ds[..3] + "-" + mid + [ds[12]]
    && Plain(mid) && DigitsIn(mid) == ds[3..12] && mid != [] && mid[0] == ds[3]
  }

  /** Every division after the first three digits starts so. */
  lemma StartsInParts(body: string, ds: string, table: Option)
    requires |ds| == 13 && AllDigits(ds) && (table.Some? ==> TableOk(table.table, 1, 9)) && DividesRest(body, ds, table)
    ensures |body| >= 6 && body[..4] == ds[..3] + "-" && body[4] == ds[3] && body[|body| - 1] == ds[12]
  {
    hide TableOk, NoRow, HasRow;
    if body == Parts(ds) {
      assert body[..4] == ds[..3] + "-";
    } else {
      var r: nat :| DividesBy(body, ds, table.table, r);
      HasRowIn(ds[3..12], table.table, r);
      var p := table.table.rows[r].lower;
      var ins := Insert(p, ds[3..12], |p|);
      FirstInserted(p, ds[3..12], |p|);
      hide Insert, Slots;
      assert body[..4] == ds[..3] + "-";
      assert body[4..][0] == ins[0];
    }
  }

  lemma {:induction false} FirstInserted(p: string, s: string, n: nat)
    requires 0 < n <= |p| && Slots(p, n) <= |s| && s != [] && IsDigit(p[0])
    ensures Insert(p, s, n)[0] == s[0] && Slots(p, n) > 0
  {
    if n == 1 {
      assert Insert(p, s, 0) == [] && Slots(p, 0) == 0;
    } else {
      SlotsUp(p, n - 1, n);
      FirstInserted(p, s, n - 1);
    }
  }

  lemma PartsOf(body: string, ds: string, table: Option) returns (mid: string)
    requires |ds| == 13 && AllDigits(ds) && (table.Some? ==> TableOk(table.table, 1, 9)) && DividesRest(body, ds, table)
    requires Shows(body, ds)
    ensures InParts(body, ds, mid)
  {
    StartsInParts(body, ds, table);
    hide TableOk, DividesRest;
    mid := body[4..|body| - 1];
    assert body == body[..4] + mid + [ds[12]];
    assert body == ds[..3] + "-" + mid + [ds[12]];
    MiddleDigits(ds, mid);
    forall i | 0 <= i < |mid| ensures IsDigit(mid[i]) || mid[i] == '-' {
      assert mid[i] == body[4 + i];
    }
  }

  lemma MiddleDigits(ds: string, mid: string)
    requires |ds| == 13 && AllDigits(ds) && DigitsIn(ds[..3] + "-" + mid + [ds[12]]) == ds
    ensures DigitsIn(mid) == ds[3..12]
  {
    DigitsInJoin(ds[..3] + "-" + mid, [ds[12]]);
    DigitsInJoin(ds[..3] + "-", mid);
    DigitsInJoin(ds[..3], "-");
    DigitsInDigits(ds[..3]);
    OneChar('-');
    OneChar(ds[12]);
    hide DigitsIn;
    var d := DigitsIn(mid);
    assert ds == ds[..3] + d + [ds[12]];
    assert ds[3..12] == d;
  }

  // ----- scanning short texts ------------------------------------------------------------

  /** Digits and hyphens before the last character are taken as they come. */
  lemma {:induction false} ScansOn(s: string, p: nat, body: string, num: string, kind: Kind)
    requires p + |body| < |s| && s[p..p + |body|] == body && Plain(body)
    requires s[p + |body|] != '!' && s[p + |body|] != '\0' && |num| + |DigitsIn(body)| <= 12
    ensures Scan(s, p, num, kind, false, true) == Scan(s, p + |body|, num + DigitsIn(body), kind, false, true)
    decreases |body|
  {
    hide Scan, Take, DigitsIn, Plain;
    if body == [] {
      NoDigits();
      assert num + [] == num;
    } else {
      var c, rest := body[0], body[1..];
      PlainHead(body);
      NextChar(s, p, body);
      var d := if IsDigit(c) then [c] else [];
      TakesPlain(s, p, num, kind);
      ScanStep(s, p, num, kind, false, true);
      ScansOn(s, p + 1, rest, num + d, kind);
      assert num + d + DigitsIn(rest) == num + (d + DigitsIn(rest));
    }
  }

  lemma NoDigits()
    ensures DigitsIn([]) == []
  {
  }

  lemma PlainHead(body: string)
    requires Plain(body) && body != []
    ensures IsDigit(body[0]) || body[0] == '-'
    ensures Plain(body[1..]) && DigitsIn(body) == (if IsDigit(body[0]) then [body[0]] else []) + DigitsIn(body[1..])
    ensures body[1..] != [] ==> body[1] != '!' && body[1] != '\0'
  {
    assert body == [body[0]] + body[1..];
    DigitsInJoin([body[0]], body[1..]);
    OneChar(body[0]);
  }

  lemma NextChar(s: string, p: nat, body: string)
    requires p + |body| < |s| && s[p..p + |body|] == body && body != []
    ensures s[p] == body[0] && s[p + 1..p + |body|] == body[1..] && (body[1..] != [] ==> s[p + 1] == body[1])
  {
    assert s[p] == s[p..p + |body|][0];
    assert s[p + 1..p + |body|] == s[p..p + |body|][1..];
    if |body| > 1 { assert s[p + 1] == s[p..p + |body|][1]; }
  }

  lemma TakesPlain(s: string, p: nat, num: string, kind: Kind)
    requires p + 1 < |s| && (IsDigit(s[p]) || s[p] == '-') && s[p + 1] != '!' && s[p + 1] != '\0' && |num| <= 12
    ensures At(s, p) != '\0'
    ensures Take(s, p, num, kind, false, true) == Scanned(num + if IsDigit(s[p]) then [s[p]] else [], kind, false, true)
  {
    assert num + [] == num;
  }

  /** The last character and the mark after it. */
  lemma ScansLast(s: string, p: nat, num: string, kind: Kind, c: char, flag: bool, kind': Kind)
    requires p < |s| && s[p..] == [c] + Mark(flag) && (IsDigit(c) || (c == 'X' && |num| != 11))
    requires match |num|
             case 7 => kind.Unknown? && kind'.Issn?
             case 9 => kind' == if kind.Unknown? then Isbn else kind
             case 11 => kind.Unknown? && kind'.Upc?
             case _ => false
    requires kind.Unknown? || kind.Ismn?
    ensures Scan(s, p, num, kind, false, true) == Scanned(num + [c], kind', flag, !flag)
  {
    assert s[p] == s[p..][0] == c;
    assert flag ==> |s[p..]| == 2 && s[p..][1] == '!' && s[p + 1] == '!';
    ScanStep(s, p, num, kind, false, true);
    var n := num + [c];
    if flag {
      ScanStep(s, p + 1, n, kind', false, true);
      ScanEnd(s, p + 2, n, kind', true, false);
    } else {
      ScanEnd(s, p + 1, n, kind', false, true);
    }
  }

  // ----- reading them back -------------------------------------------------------------------

  /** The number whose twelve first digits are those. */
  function Made(lead: string, flag: bool): Outcome
    requires |lead| == 12 && AllDigits(lead)
  {
    Number(2 * Value(WithCheck(lead)) + if flag then 1 else 0)
  }

  lemma {:induction false} SetsLast(s: string, d: char, m: string, c: char)
    requires IsDigit(d) && (m == "" || m == "!")
    ensures SetLastDigit(s + [d] + m, c) == s + [c] + m
  {
    if m == "" {
      assert (s + [d] + m)[..|s|] == s;
    } else {
      var t := s + [d] + m;
      assert t[..|t| - 1] == s + [d] && (s + [d])[..|s|] == s;
      assert SetLastDigit(s + [d], c) == s + [c];
    }
  }

  lemma CheckCharGiven(c: nat)
    requires c <= 10
    ensures GivenCheck(CheckChar(c)) == c && (IsDigit(CheckChar(c)) || CheckChar(c) == 'X')
  {
  }

  lemma {:induction false} DescendingPrefix(a: string, b: string, size: nat, n: nat)
    requires n <= |a| && n <= |b| && n < size && a[..n] == b[..n] && AllDigits(a[..n])
    ensures Descending(a, size, n) == Descending(b, size, n)
  {
    if n > 0 {
      assert a[..n][..n - 1] == a[..n - 1] && b[..n][..n - 1] == b[..n - 1];
      assert a[n - 1] == a[..n][n - 1] == b[..n][n - 1];
      DescendingPrefix(a, b, size, n - 1);
    }
  }

  /** A start, digits and hyphens, and a last character with the mark. */
  lemma ScansShort(pre: string, body: string, c: char, flag: bool, num: string, kind: Kind, kind': Kind)
    requires Plain(body) && (IsDigit(c) || c == 'X') && num == pre + DigitsIn(body) && |num| <= 12 && (c == 'X' ==> |num| != 11)
    requires (pre == [] && kind.Unknown?) || (pre == "M" && kind.Ismn?)
    requires match |num|
             case 7 => kind.Unknown? && kind'.Issn?
             case 9 => kind' == if kind.Unknown? then Isbn else kind
             case 11 => kind.Unknown? && kind'.Upc?
             case _ => false
    ensures Scan(pre + body + [c] + Mark(flag), 0, [], Unknown, false, true) == Scanned(num + [c], kind', flag, !flag)
  {
    var s, p := pre + body + [c] + Mark(flag), |pre| + |body|;
    assert s[|pre|..p] == body && s[p..] == [c] + Mark(flag) && s[p] == c;
    assert pre == "M" ==> s[0] == 'M';
    hide DigitsIn, Plain;
    if pre != [] {
      ScanStep(s, 0, [], Unknown, false, true);
      assert [] + ['M'] == "M";
      assert Take(s, 0, [], Unknown, false, true) == Scanned("M", Ismn, false, true);
    }
    hide Scan, Take;
    ScansOn(s, |pre|, body, pre, kind);
    ScansLast(s, p, num, kind, c, flag, kind');
  }

  /** Nine digits in any grouping and their check digit are read as an ISBN of 978. */
  lemma ReadsIsbn(mid: string, nine: string, flag: bool, weak: bool)
    requires Plain(mid) && DigitsIn(mid) == nine && |nine| == 9 && AllDigits(nine) && nine[..9] == nine
    ensures StringToEan(mid + [CheckChar(WeightCheck(nine, 10))] + Mark(flag), Only(Isbn), weak) == Made("978" + nine, flag)
  {
    hide Scan, DigitsIn, Plain, Descending, Value, WithCheck, CheckChar, Finish, Made;
    var w := WeightCheck(nine, 10);
    var c := CheckChar(w);
    CheckCharGiven(w);
    assert [] + nine == nine && [] + mid == mid;
    ScansShort([], mid, c, flag, nine, Unknown, Isbn);
    var num := nine + [c];
    assert num[..9] == nine;
    DescendingPrefix(num, nine, 10, 9);
    FinishIsbn(num, nine, flag, weak);
  }

  lemma FinishIsbn(num: string, nine: string, flag: bool, weak: bool)
    requires |num| == 10 && num[..9] == nine && AllDigits(nine) && GivenCheck(num[9]) == WeightCheck(num, 10)
    ensures |Lead(num, Isbn)| == 12 && AllDigits(Lead(num, Isbn))
    ensures Finish(Scanned(num, Isbn, flag, !flag), Only(Isbn), weak) == Made("978" + nine, flag)
  {
    hide Value, WithCheck, WeightCheck;
  }

  /** M, eight digits and the check digit of the whole are read as an ISMN. */
  lemma ReadsIsmn(body: string, eight: string, c: char, flag: bool, weak: bool)
    requires Plain(body) && DigitsIn(body) == eight && |eight| == 8 && AllDigits(eight) && AllDigits("9790" + eight)
    requires IsDigit(c) && c == DigitChar(CheckDigit("9790" + eight))
    ensures StringToEan("M" + body + [c] + Mark(flag), Only(Ismn), weak) == Made("9790" + eight, flag)
  {
    hide Scan, DigitsIn, Plain, CheckDigit, Value, WithCheck, Finish, Made;
    ScansShort("M", body, c, flag, "M" + eight, Ismn, Ismn);
    FinishIsmn("M" + eight + [c], eight, flag, weak);
  }

  lemma FinishIsmn(num: string, eight: string, flag: bool, weak: bool)
    requires |num| == 10 && num[1..9] == eight && AllDigits(eight) && AllDigits("9790" + eight)
    requires num[9] == DigitChar(CheckDigit("9790" + eight))
    ensures |Lead(num, Ismn)| == 12 && AllDigits(Lead(num, Ismn))
    ensures Finish(Scanned(num, Ismn, flag, !flag), Only(Ismn), weak) == Made("9790" + eight, flag)
  {
    hide Value, WithCheck, CheckDigit;
  }

  /** Seven digits and their check digit are read as an ISSN of issue 00. */
  lemma ReadsIssn(body: string, seven: string, weak: bool)
    requires Plain(body) && DigitsIn(body) == seven && |seven| == 7 && AllDigits(seven) && seven[..7] == seven
    ensures StringToEan(body + [CheckChar(WeightCheck(seven, 8))], Only(Issn), weak) == Made("977" + seven + "00", false)
  {
    hide Scan, DigitsIn, Plain, Descending, Value, WithCheck, CheckChar, Finish, Made;
    var w := WeightCheck(seven, 8);
    var c := CheckChar(w);
    CheckCharGiven(w);
    assert [] + seven == seven && [] + body == body && body + [c] + Mark(false) == body + [c];
    ScansShort([], body, c, false, seven, Unknown, Issn);
    var num := seven + [c];
    assert num[..7] == seven;
    DescendingPrefix(num, seven, 8, 7);
    FinishIssn(num, seven, weak);
  }

  lemma FinishIssn(num: string, seven: string, weak: bool)
    requires |num| == 8 && num[..7] == seven && AllDigits(seven) && GivenCheck(num[7]) == WeightCheck(num, 8)
    ensures |Lead(num, Issn)| == 12 && AllDigits(Lead(num, Issn))
    ensures Finish(Scanned(num, Issn, false, true), Only(Issn), weak) == Made("977" + seven + "00", false)
  {
    hide Value, WithCheck, WeightCheck;
  }

  /** Eleven digits and the check digit of the whole are read as a UPC. */
  lemma ReadsUpc(eleven: string, c: char, weak: bool)
    requires |eleven| == 11 && AllDigits(eleven) && AllDigits("0" + eleven) && IsDigit(c)
    requires c == DigitChar(CheckDigit("0" + eleven))
    ensures StringToEan(eleven + [c], Only(Upc), weak) == Made("0" + eleven, false)
  {
    hide Scan, Plain, DigitsIn, CheckDigit, Value, WithCheck, Finish, Made;
    DigitsInDigits(eleven);
    assert [] + eleven == eleven && eleven + [c] + Mark(false) == eleven + [c];
    ScansShort([], eleven, c, false, eleven, Unknown, Upc);
    FinishUpc(eleven + [c], eleven, weak);
  }

  lemma FinishUpc(num: string, eleven: string, weak: bool)
    requires |num| == 12 && num[..11] == eleven && AllDigits(eleven) && AllDigits("0" + eleven)
    requires num[11] == DigitChar(CheckDigit("0" + eleven))
    ensures |Lead(num, Upc)| == 12 && AllDigits(Lead(num, Upc))
    ensures Finish(Scanned(num, Upc, false, true), Only(Upc), weak) == Made("0" + eleven, false)
  {
    hide Value, WithCheck, CheckDigit;
  }

  // ----- what survives ------------------------------------------------------------------------

  /** The rest of the text: the middle, the check digit and the mark. */
  lemma RestOf(body: string, ds: string, mid: string, flag: bool)
    requires InParts(body, ds, mid)
    ensures var text := body + Mark(flag);
      && |text| >= 14 && text[..4] == ds[..3] + "-" && text[4..] == mid + [ds[12]] + Mark(flag)
      && DigitsIn(text[4..]) == ds[3..]
  {
    hide DigitsIn, Plain;
    RestText(body, ds[..3] + "-", mid, ds[12], Mark(flag));
    DigitsInJoin(mid + [ds[12]], Mark(flag));
    DigitsInJoin(mid, [ds[12]]);
    OneChar(ds[12]);
    OneChar('!');
    NoDigits();
    LongEnough(mid);
    assert ds[3..] == ds[3..12] + [ds[12]];
  }

  lemma RestText(body: string, head: string, mid: string, c: char, m: string)
    requires |head| == 4 && body == head + mid + [c]
    ensures (body + m)[..4] == head && (body + m)[4..] == mid + [c] + m
  {
    assert body + m == head + (mid + [c] + m);
  }

  lemma {:induction false} LongEnough(s: string)
    ensures |s| >= |DigitsIn(s)|
  {
    if s != [] { LongEnough(s[..|s| - 1]); }
  }

  lemma MadeIsDs(ds: string, lead: string, flag: bool)
    requires Checked(ds) && lead == ds[..12]
    ensures AllDigits(lead) && Made(lead, flag) == Number(2 * Value(ds) + if flag then 1 else 0)
  {
    CheckedLead(ds);
  }

  lemma IsbnSurvives(body: string, ds: string, mid: string, flag: bool, weak: bool)
    requires InParts(body, ds, mid) && Checked(ds) && ds[..3] == "978"
    ensures var text := body + Mark(flag); |text| >= 4 && |DigitsIn(text[4..])| >= 9 && AllDigits(DigitsIn(text[4..]))
    ensures StringToEan(ShortIsbn(body + Mark(flag)), Only(Isbn), weak) == Number(2 * Value(ds) + if flag then 1 else 0)
  {
    hide Checked, DigitsIn, StringToEan, Value, SetLastDigit, Descending, CheckChar, Made;
    var text, nine := body + Mark(flag), ds[3..12];
    RestOf(body, ds, mid, flag);
    AllDigitsIn(text[4..]);
    assert ds[3..][..9] == nine && nine[..9] == nine;
    DescendingPrefix(ds[3..], nine, 10, 9);
    SetsLast(mid, ds[12], Mark(flag), CheckChar(WeightCheck(nine, 10)));
    ReadsIsbn(mid, nine, flag, weak);
    assert "978" + nine == ds[..12];
    MadeIsDs(ds, "978" + nine, flag);
  }

  lemma IsmnSurvives(body: string, ds: string, mid: string, flag: bool, weak: bool)
    requires InParts(body, ds, mid) && Checked(ds) && ds[..4] == "9790"
    ensures |body + Mark(flag)| >= 5
    ensures StringToEan(ShortIsmn(body + Mark(flag)), Only(Ismn), weak) == Number(2 * Value(ds) + if flag then 1 else 0)
  {
    var text, eight := body + Mark(flag), ds[4..12];
    PlainHead(mid);
    hide Checked, DigitsIn, StringToEan, Value, CheckDigit, Made, Plain;
    RightCheck(ds);
    RestOf(body, ds, mid, flag);
    assert ds[3] == ds[..4][3];
    assert DigitsIn(mid[1..]) == eight;
    assert text[5..] == text[4..][1..] == mid[1..] + [ds[12]] + Mark(flag);
    assert ShortIsmn(text) == "M" + mid[1..] + [ds[12]] + Mark(flag);
    assert "9790" + eight == ds[..12];
    ReadsIsmn(mid[1..], eight, ds[12], flag, weak);
    MadeIsDs(ds, "9790" + eight, flag);
  }

  lemma UpcSurvives(body: string, ds: string, flag: bool, weak: bool)
    requires |ds| == 13 && Shows(body, ds) && Checked(ds) && ds[0] == '0' && body[0] == '0'
    ensures |body + Mark(flag)| >= 1
    ensures StringToEan(ShortUpc(body + Mark(flag)), Only(Upc), weak) == Number(2 * Value(ds))
  {
    hide Checked, DigitsIn, StringToEan, Value, CheckDigit, Made, Shows;
    var text, eleven := body + Mark(flag), ds[1..12];
    UpcDigits(body, ds, flag);
    RightCheck(ds);
    assert ShortUpc(text) == ds[1..] == eleven + [ds[12]];
    assert "0" + eleven == ds[..12];
    ReadsUpc(eleven, ds[12], weak);
    MadeIsDs(ds, "0" + eleven, false);
  }

  lemma UpcDigits(body: string, ds: string, flag: bool)
    requires |ds| == 13 && Shows(body, ds) && ds[0] == '0' && body[0] == '0'
    ensures |body| > 0 && DigitsIn((body + Mark(flag))[1..]) == ds[1..]
  {
    hide DigitsIn, Plain;
    var text := body + Mark(flag);
    assert text == ['0'] + text[1..];
    DigitsInJoin(['0'], text[1..]);
    DigitsInJoin(body, Mark(flag));
    OneChar('0');
    OneChar('!');
    NoDigits();
    assert DigitsIn(text) == ds;
    assert (['0'] + DigitsIn(text[1..]))[1..] == DigitsIn(text[1..]);
  }

  lemma RightCheck(ds: string)
    requires |ds| == 13 && Checked(ds)
    ensures AllDigits(ds) && AllDigits(ds[..12]) && ds[12] == DigitChar(CheckDigit(ds[..12]))
  {
    CheckedLead(ds);
  }

  /** The ISSN table: one row for all numbers. */
  function IssnTable(): Table {
    Table([Range("0000-000", "9999-999")], seq(10, _ => (0, 1)))
  }

  lemma {:induction false} AllInside(d: string, n: nat)
    requires n <= 8 && |d| >= 7 && AllDigits(d)
    ensures Slots("0000-000", n) == Slots("9999-999", n) == (if n <= 4 then n else n - 1)
    ensures Sign(d, "0000-000", n) >= 0 && Sign(d, "9999-999", n) <= 0
  {
    if n > 0 { AllInside(d, n - 1); }
  }

  lemma IssnRowFound(d: string)
    requires |d| == 9 && AllDigits(d)
    ensures InRange(d, Range("0000-000", "9999-999")) && !NoRow(d, IssnTable(), 9)
  {
    AllInside(d, 8);
    hide Slots, Sign;
    var t := IssnTable();
    assert t.rows[0] == Range("0000-000", "9999-999") && InRange(d, t.rows[0]);
    assert Ascending(t.rows, 9);
  }

  /** So the middle is four digits, three and two. */
  lemma IssnMiddle(body: string, ds: string)
    requires |ds| == 13 && AllDigits(ds) && TableOk(IssnTable(), 1, 9) && DividesRest(body, ds, Some(IssnTable()))
    ensures body == ds[..3] + "-" + (ds[3..7] + "-" + ds[7..10] + "-" + ds[10..12]) + "-" + [ds[12]]
  {
    hide NoRow, InRange, TableOk, Insert, Slots, RowOk, IssnTable;
    IssnRowFound(ds[3..12]);
    var r: nat :| DividesBy(body, ds, IssnTable(), r);
    IssnRow(r);
    HasRowIn(ds[3..12], IssnTable(), r);
    InsertIssn(ds[3..12]);
    SliceParts(ds);
  }

  lemma SliceParts(ds: string)
    requires |ds| == 13
    ensures ds[3..12][..4] == ds[3..7] && ds[3..12][4..7] == ds[7..10]
  {
    var a := ds[3..12];
    assert a[4..7] == [a[4], a[5], a[6]] == [ds[7], ds[8], ds[9]] == ds[7..10];
  }

  lemma IssnRow(r: nat)
    ensures r < |IssnTable().rows| ==> IssnTable().rows[r].lower == "0000-000"
  {
  }

  lemma InsertIssn(s: string)
    requires |s| == 9
    ensures Slots("0000-000", 8) == 7 && Insert("0000-000", s, 8) == s[..4] + "-" + s[4..7]
  {
    var p := "0000-000";
    assert Slots(p, 1) == 1 && Slots(p, 2) == 2 && Slots(p, 3) == 3 && Slots(p, 4) == 4;
    assert Slots(p, 5) == 4 && Slots(p, 6) == 5 && Slots(p, 7) == 6 && Slots(p, 8) == 7;
    hide Slots;
    assert Insert(p, s, 0) == [];
    InsertStep(p, s, 0);
    InsertStep(p, s, 1);
    InsertStep(p, s, 2);
    InsertStep(p, s, 3);
    hide Insert;
    assert Insert(p, s, 4) == s[..4];
    InsertStep(p, s, 4);
    InsertStep(p, s, 5);
    InsertStep(p, s, 6);
    InsertStep(p, s, 7);
    assert Insert(p, s, 8) == s[..4] + "-" + [s[4], s[5], s[6]];
  }

  lemma IssnText(body: string, ds: string, flag: bool)
    requires |ds| == 13 && body == ds[..3] + "-" + (ds[3..7] + "-" + ds[7..10] + "-" + ds[10..12]) + "-" + [ds[12]]
    ensures |body| == 17 && (body + Mark(flag))[4..12] == ds[3..7] + "-" + ds[7..10]
  {
    var head, mid := ds[..3] + "-", ds[3..7] + "-" + ds[7..10];
    assert body == head + mid + ("-" + ds[10..12] + "-" + [ds[12]]);
    assert |head| == 4 && |mid| == 8;
  }

  lemma IssnSurvivesIff(body: string, ds: string, flag: bool, weak: bool)
    requires |ds| == 13 && AllDigits(ds) && Checked(ds) && ds[..3] == "977"
    requires body == ds[..3] + "-" + (ds[3..7] + "-" + ds[7..10] + "-" + ds[10..12]) + "-" + [ds[12]]
    requires |body| == 17 && InParts(body, ds, body[4..|body| - 1])
    ensures var text := body + Mark(flag); |text| >= 12 && |DigitsIn(text[4..])| >= 7 && AllDigits(DigitsIn(text[4..]))
    ensures var r := StringToEan(ShortIssn(body + Mark(flag)), Only(Issn), weak);
      r.Number? && r.ean % 2 == 0 && (r.ean == 2 * Value(ds) <==> ds[10..12] == "00")
  {
    hide Checked, DigitsIn, StringToEan, Value, Descending, CheckChar, Plain, InParts, WithCheck;
    var text, seven := body + Mark(flag), ds[3..10];
    RestOf(body, ds, body[4..|body| - 1], flag);
    AllDigitsIn(text[4..]);
    assert ds[3..][..7] == seven && seven[..7] == seven;
    DescendingPrefix(ds[3..], seven, 8, 7);
    var eight := ds[3..7] + "-" + ds[7..10];
    IssnText(body, ds, flag);
    DashedDigits(ds[3..7], ds[7..10]);
    assert ds[3..7] + ds[7..10] == seven;
    ReadsIssn(eight, seven, weak);
    IssueCode(ds);
  }

  lemma DashedDigits(a: string, b: string)
    requires AllDigits(a) && AllDigits(b)
    ensures Plain(a + "-" + b) && DigitsIn(a + "-" + b) == a + b
  {
    DigitsInDigits(a);
    DigitsInDigits(b);
    HyphenJoin(a, b);
  }

  /** The number of issue 00 is the number itself exactly when that is its issue. */
  lemma IssueCode(ds: string)
    requires Checked(ds) && ds[..3] == "977"
    ensures var lead := "977" + ds[3..10] + "00";
      |lead| == 12 && AllDigits(lead) && (Value(WithCheck(lead)) == Value(ds) <==> ds[10..12] == "00")
  {
    var lead := "977" + ds[3..10] + "00";
    CheckedLead(ds);
    WithCheckChecked(lead);
    ValueOfDigits(WithCheck(lead));
    ValueOfDigits(ds);
    hide Checked, Value, Digits, CheckDigit, Weighted;
    assert lead[10..12] == "00" && WithCheck(lead)[..12] == lead;
    if ds[10..12] == "00" {
      assert ds[..12] == ds[..3] + ds[3..10] + ds[10..12];
    }
    if Value(WithCheck(lead)) == Value(ds) {
      assert WithCheck(lead) == ds;
      assert ds[10..12] == ds[..12][10..12];
    }
  }

  /** The short form of UPC loses the flag, that of ISSN the flag and the issue code. */
  predicate Survives(ds: string, flag: bool, country: bool)
    requires |ds| == 13
  {
    country ==>
      match SubKind(ds)
      case Upc => !flag
      case Issn => !flag && ds[10..12] == "00"
      case _ => true
  }

  /** An ISSN number with issue code 01, and a UPC number when flagged, do not survive. */
  lemma LostNumbers()
    ensures var issn, upc := "9770000000010", "0012345678905";
      && Checked(issn) && SubKind(issn).Issn? && Digits(Value(issn), 13) == issn && !Survives(issn, false, true)
      && Checked(upc) && SubKind(upc).Upc? && Digits(Value(upc), 13) == upc && !Survives(upc, true, true)
  {
    LostIssn();
    LostUpc();
    ValueOfDigits("9770000000010");
    ValueOfDigits("0012345678905");
    hide Checked, Value, Digits;
  }

  lemma LostIssn()
    ensures var issn := "9770000000010"; Checked(issn) && SubKind(issn).Issn? && issn[10..12] == "01"
  {
    var issn := "9770000000010";
    assert issn[..3] == "977" && issn[10..12] == "01";
    assert Weighted(issn, 3) == 37 && Weighted(issn, 10) == 37 && Weighted(issn, 13) == 40;
  }

  lemma LostUpc()
    ensures var upc := "0012345678905"; Checked(upc) && SubKind(upc).Upc?
  {
    var upc := "0012345678905";
    assert Weighted(upc, 4) == 7 && Weighted(upc, 8) == 45 && Weighted(upc, 13) == 90;
  }

  /** The text is long enough to be shortened. */
  predicate Ready(text: string, country: bool) {
    country ==> |text| >= 12 && |DigitsIn(text[4..])| >= 9 && AllDigits(DigitsIn(text[4..]))
  }

  /** The short form of the text is read as the number exactly if it survives. */
  ghost predicate ComesBack(text: string, ds: string, flag: bool, country: bool, weak: bool)
    requires |ds| == 13 && Ready(text, country)
  {
    var r := StringToEan(Short(text, ds, country), Only(SubKind(ds)), weak);
    && (r == Number(2 * Value(ds) + if flag then 1 else 0) <==> Survives(ds, flag, country))
    && (!Survives(ds, flag, country) ==> r.Number? && r.ean % 2 == 0)
  }

  lemma ShortReadsBack(body: string, ds: string, flag: bool, t: Tables, country: bool, weak: bool)
    requires TablesOk(t) && t.issn == IssnTable() && |ds| == 13 && AllDigits(ds) && Checked(ds) && IsBody(body, ds, t, country)
    ensures Ready(body + Mark(flag), country) && ComesBack(body + Mark(flag), ds, flag, country, weak)
  {
    BodyShows(body, ds, t, country);
    hide Checked, IsBody, StringToEan, DigitsIn, TablesOk, TableOk, Value, Shows, InParts, DividesRest;
    if country {
      CountryParts(body, ds, t);
      var mid := PartsOf(body, ds, TableOf(t, ds));
      KindReadsBack(body, ds, mid, flag, TableOf(t, ds), weak);
    } else {
      LongStays(body, ds, flag, weak);
    }
  }

  lemma BodyShows(body: string, ds: string, t: Tables, country: bool)
    requires |ds| == 13 && AllDigits(ds) && TablesOk(t) && IsBody(body, ds, t, country)
    ensures Shows(body, ds)
    ensures if country then exists c: nat :: HasRow(ds[..12], t.ean13, c) else NoRow(ds[..12], t.ean13, 3)
  {
  }

  lemma KindReadsBack(body: string, ds: string, mid: string, flag: bool, table: Option, weak: bool)
    requires |ds| == 13 && AllDigits(ds) && Checked(ds) && Shows(body, ds) && InParts(body, ds, mid)
    requires (table.Some? ==> TableOk(table.table, 1, 9)) && DividesRest(body, ds, table)
    requires SubKind(ds).Issn? ==> table == Some(IssnTable())
    ensures Ready(body + Mark(flag), true) && ComesBack(body + Mark(flag), ds, flag, true, weak)
  {
    hide Checked, StringToEan, DigitsIn, TableOk, Value, Shows, InParts, DividesRest, ShortIsbn, ShortIsmn, ShortIssn, ShortUpc;
    var text := body + Mark(flag);
    RestOf(body, ds, mid, flag);
    AllDigitsIn(text[4..]);
    match SubKind(ds)
    case Isbn => if ds[..3] == "978" { IsbnSurvives(body, ds, mid, flag, weak); } else { NewIsbn(body, ds, flag, weak); }
    case Ismn => IsmnSurvives(body, ds, mid, flag, weak);
    case Upc =>
      assert body[0] == text[..4][0] == ds[0];
      UpcSurvives(body, ds, flag, weak);
    case Issn =>
      IssnMiddle(body, ds);
      IssnText(body, ds, flag);
      MiddleIs(body, ds, mid);
      IssnSurvivesIff(body, ds, flag, weak);
    case Ean => LongStays(body, ds, flag, weak);
  }

  lemma MiddleIs(body: string, ds: string, mid: string)
    requires InParts(body, ds, mid)
    ensures |body| >= 5 && mid == body[4..|body| - 1]
  {
  }

  /** Numbers from 979 have no short form. */
  lemma NewIsbn(body: string, ds: string, flag: bool, weak: bool)
    requires |ds| == 13 && Checked(ds) && Shows(body, ds) && SubKind(ds).Isbn? && ds[..3] != "978"
    requires Ready(body + Mark(flag), true) && |body| >= 4 && body[..4] == ds[..3] + "-"
    ensures ShortIsbn(body + Mark(flag)) == body + Mark(flag)
    ensures StringToEan(body + Mark(flag), Only(Isbn), weak) == Number(2 * Value(ds) + if flag then 1 else 0)
  {
    var text := body + Mark(flag);
    assert text[..4] == body[..4] && (ds[..3] + "-")[..3] == ds[..3] && "978-"[..3] == "978";
    LongStays(body, ds, flag, weak);
  }

  lemma CountryParts(body: string, ds: string, t: Tables)
    requires TablesOk(t) && |ds| == 13 && AllDigits(ds) && IsBody(body, ds, t, true)
    ensures (TableOf(t, ds).Some? ==> TableOk(TableOf(t, ds).table, 1, 9)) && DividesRest(body, ds, TableOf(t, ds))
    ensures Shows(body, ds) && TableOk(t.issn, 1, 9)
  {
    hide DividesRest, TableOk, Shows;
  }

  /** The long form is read back by the reader of the number's own kind. */
  lemma LongStays(body: string, ds: string, flag: bool, weak: bool)
    requires Shows(body, ds) && |ds| == 13 && Checked(ds)
    ensures StringToEan(body + Mark(flag), Only(SubKind(ds)), weak) == Number(2 * Value(ds) + if flag then 1 else 0)
  {
    hide Checked, Shows, StringToEan, Value;
    ReadsBack(body, ds, flag, Only(SubKind(ds)), weak);
    OwnKind(ds);
  }

  lemma OwnKind(ds: string)
    requires |ds| == 13
    ensures Accepted(Only(SubKind(ds)), Ean, ds[..12])
  {
    assert ds[..12][..3] == ds[..3] && ds[..12][..4] == ds[..4];
  }
}
