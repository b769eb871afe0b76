/** Reading an EAN13, UPC, ISBN, ISMN or ISSN number from text. */
module IsnRead {
  import opened IsnHyphen
  import opened IsnEan

  datatype Kind = Unknown | Ean | Isbn | Ismn | Issn | Upc

  /** What the caller takes: any kind, or one. */
  datatype Accept = Any | Only(kind: Kind)

  datatype Problem = Syntax | TooBig | WrongType | BadCheckDigit

  datatype Outcome = Failed(why: Problem) | Number(ean: nat)

  function At(s: string, p: nat): char {
    if p < |s| then s[p] else '\0'
  }

  function Upper(c: char): char {
    if c == 'x' then 'X' else c
  }

  // ----- collecting the characters of the number --------------------------------

  datatype Scanned = Stopped(why: Problem) | Scanned(num: string, kind: Kind, magic: bool, valid: bool)

  predicate IsLast(s: string, i: nat) {
    At(s, i + 1) == '!' || At(s, i + 1) == '\0'
  }

  predicate IsX(c: char) {
    c == 'X' || c == 'x'
  }

  /** The state after the character at i. */
  function Take(s: string, i: nat, num: string, kind: Kind, magic: bool, valid: bool): Scanned {
    var c := At(s, i);
    var last := IsLast(s, i);
    var magic' := magic || (c == '?' && last);
    var digit := IsDigit(c) || (c == '?' && last);
    if |num| == 0 && (c == 'M' || c == 'm') then
      if kind.Unknown? then Scanned(num + ['M'], Ismn, magic', valid) else Stopped(Syntax)
    else if |num| == 7 && (digit || IsX(c)) && last then
      if kind.Unknown? then Scanned(num + [Upper(c)], Issn, magic', valid) else Stopped(Syntax)
    else if |num| == 9 && (digit || IsX(c)) && last then
      if kind.Unknown? || kind.Ismn?
      then Scanned(num + [Upper(c)], if kind.Unknown? then Isbn else kind, magic', valid) else Stopped(Syntax)
    else if |num| == 11 && digit && last then
      if kind.Unknown? then Scanned(num + [c], Upc, magic', valid) else Stopped(Syntax)
    else if c == '-' || c == ' ' then Scanned(num, kind, magic', valid)
    else if c == '!' && At(s, i + 1) == '\0' then Scanned(num, kind, true, valid && magic')
    else if !digit then Stopped(Syntax)
    else if |num| >= 13 then Stopped(TooBig)
    else Scanned(num + [c], kind, magic', valid)
  }

  function Scan(s: string, i: nat, num: string, kind: Kind, magic: bool, valid: bool): Scanned
    decreases if i < |s| then |s| - i else 0
  {
    if At(s, i) == '\0' then Scanned(num, kind, magic, valid)
    else
      var t := Take(s, i, num, kind, magic, valid);
      if t.Stopped? then t else Scan(s, i + 1, t.num, t.kind, t.magic, t.valid)
  }

  // ----- from characters to a number ----------------------------------------------

  /** Sum of the first n digits weighted from size down. */
  function Descending(ds: string, size: nat, n: nat): nat
    requires n <= |ds| && n < size && AllDigits(ds[..n])
  {
    if n == 0 then 0
    else
      assert ds[..n][..n - 1] == ds[..n - 1];
      assert IsDigit(ds[..n][n - 1]);
      Descending(ds, size, n - 1) + (size + 1 - n) * DigitVal(ds[n - 1])
  }

  /** The check value of ISBN and ISSN: ten stands for X. */
  function WeightCheck(ds: string, size: nat): (c: nat)
    requires size >= 1 && |ds| >= size - 1 && AllDigits(ds[..size - 1])
    ensures c <= 10 && (Descending(ds, size, size - 1) + c) % 11 == 0
  {
    var w := Descending(ds, size, size - 1) % 11;
    if w == 0 then 0 else 11 - w
  }

  /** The value of the check character given, ten for X and above nine for '?'. */
  function GivenCheck(c: char): int {
    if c == 'X' then 10 else c as int - '0' as int
  }

  /** The kind settled by the number of characters, or none. */
  function KindOf(num: string, kind: Kind): Kind {
    if |num| == 13 && kind.Unknown? then Ean
    else if |num| == 12 && kind.Upc? then Upc
    else if |num| == 10 && (kind.Isbn? || kind.Ismn?) then kind
    else if |num| == 8 && (kind.Unknown? || kind.Issn?) then Issn
    else Unknown
  }

  /** The twelve digits in front of the EAN13 check digit. */
  function Lead(num: string, kind: Kind): string
    requires KindOf(num, kind) != Unknown
  {
    match KindOf(num, kind)
    case Ean => num[..12]
    case Upc => "0" + num[..11]
    case Ismn => "9790" + num[1..9]
    case Isbn => "978" + num[..9]
    case Issn => "977" + num[..7] + "00"
  }

  /** Whether the check character given is right for the kind. */
  predicate CheckFits(num: string, kind: Kind)
    requires KindOf(num, kind) != Unknown && AllDigits(Lead(num, kind)) && |Lead(num, kind)| == 12
  {
    var check := GivenCheck(num[|num| - 1]);
    match KindOf(num, kind)
    case Isbn => AllDigits(num[..9]) && WeightCheck(num, 10) == check
    case Issn => AllDigits(num[..7]) && WeightCheck(num, 8) == check
    case Ean | Upc | Ismn => CheckDigit(Lead(num, kind)) == check
  }

  /** The kind an EAN13 number is by its first digits. */
  function SubKind(ds: string): Kind
    requires |ds| >= 4
  {
    if ds[0] == '0' then Upc
    else if ds[..3] == "977" then Issn
    else if ds[..3] == "978" then Isbn
    else if ds[..4] == "9790" then Ismn
    else if ds[..3] == "979" then Isbn
    else Ean
  }

  predicate Accepted(a: Accept, kind: Kind, ds: string)
    requires |ds| >= 4
  {
    match a
    case Any => true
    case Only(k) =>
      if k.Ean? then kind.Ean?
      else if kind.Ean? then SubKind(ds) == k
      else kind == k
  }

  function WithCheck(lead: string): string
    requires |lead| == 12 && AllDigits(lead)
  {
    lead + [DigitChar(CheckDigit(lead))]
  }

  /** What is made of the characters collected. */
  function Finish(t: Scanned, a: Accept, weak: bool): Outcome
    requires t.Scanned? && KindOf(t.num, t.kind) != Unknown ==> |Lead(t.num, t.kind)| == 12 && AllDigits(Lead(t.num, t.kind))
  {
    if t.Stopped? then Failed(t.why)
    else if KindOf(t.num, t.kind).Unknown? then Failed(Syntax)
    else
      var lead := Lead(t.num, t.kind);
      if !Accepted(a, KindOf(t.num, t.kind), lead) then Failed(WrongType)
      else
        var valid := t.valid && (CheckFits(t.num, t.kind) || t.magic);
        if !valid && !t.magic && !weak then Failed(BadCheckDigit)
        else Number(2 * Value(WithCheck(lead)) + if valid then 0 else 1)
  }

  // ----- what is collected is digits ----------------------------------------------

  /** Everything collected so far is a digit, but for a leading M, and but for the
      very last character when the text ends here. */
  predicate Clean(s: string, i: nat, num: string, kind: Kind) {
    && |num| <= 13
    && (forall k :: 0 <= k < |num| ==>
         IsDigit(num[k]) || (k == 0 && kind.Ismn?) || (k == |num| - 1 && (At(s, i) == '!' || At(s, i) == '\0')))
  }

  lemma TakeClean(s: string, i: nat, num: string, kind: Kind, magic: bool, valid: bool)
    requires Clean(s, i, num, kind) && At(s, i) != '\0'
    ensures var t := Take(s, i, num, kind, magic, valid); t.Scanned? ==> Clean(s, i + 1, t.num, t.kind)
  {
    var t := Take(s, i, num, kind, magic, valid);
    if t.Scanned? && t.num != num {
      assert At(s, i) != '!';
      forall k | 0 <= k < |t.num|
        ensures IsDigit(t.num[k]) || (k == 0 && t.kind.Ismn?) ||
          (k == |t.num| - 1 && (At(s, i + 1) == '!' || At(s, i + 1) == '\0'))
      {
        if k < |num| { assert t.num[k] == num[k]; }
      }
    }
  }

  lemma {:induction false} ScanClean(s: string, i: nat, num: string, kind: Kind, magic: bool, valid: bool)
    requires Clean(s, i, num, kind)
    ensures var t := Scan(s, i, num, kind, magic, valid); t.Scanned? ==> exists j :: Clean(s, j, t.num, t.kind)
    decreases if i < |s| then |s| - i else 0
  {
    if At(s, i) != '\0' {
      var t := Take(s, i, num, kind, magic, valid);
      TakeClean(s, i, num, kind, magic, valid);
      hide Take, Clean;
      if t.Scanned? { ScanClean(s, i + 1, t.num, t.kind, t.magic, t.valid); }
    }
  }

  lemma CleanLead(s: string, j: nat, num: string, kind: Kind)
    requires Clean(s, j, num, kind) && KindOf(num, kind) != Unknown
    ensures |Lead(num, kind)| == 12 && AllDigits(Lead(num, kind))
  {
    forall k | 0 <= k < |num| - 1 && (k > 0 || !kind.Ismn?) ensures IsDigit(num[k]) {
    }
  }

  lemma ScanLead(s: string)
    ensures var t := Scan(s, 0, [], Unknown, false, true);
      t.Scanned? && KindOf(t.num, t.kind) != Unknown ==> |Lead(t.num, t.kind)| == 12 && AllDigits(Lead(t.num, t.kind))
  {
    ScanClean(s, 0, [], Unknown, false, true);
    var t := Scan(s, 0, [], Unknown, false, true);
    hide Scan, Clean;
    if t.Scanned? && KindOf(t.num, t.kind) != Unknown {
      var j :| Clean(s, j, t.num, t.kind);
      CleanLead(s, j, t.num, t.kind);
    }
  }

  /** The number a text stands for. */
  function StringToEan(s: string, a: Accept, weak: bool): Outcome {
    ScanLead(s);
    Finish(Scan(s, 0, [], Unknown, false, true), a, weak)
  }

  /** Every number read, however it was written, is of thirteen digits with the
      right check digit. */
  lemma ReadIsChecked(s: string, a: Accept, weak: bool)
    requires StringToEan(s, a, weak).Number?
    ensures var n := StringToEan(s, a, weak).ean / 2; n < Pow10(13) && Checked(Digits(n, 13))
  {
    ScanLead(s);
    var t := Scan(s, 0, [], Unknown, false, true);
    FinishNumber(t, a, weak);
    var lead := Lead(t.num, t.kind);
    hide Scan, Finish, KindOf, Lead, WithCheck, Checked, Digits, Value;
    WithCheckChecked(lead);
    ValueOfDigits(WithCheck(lead));
  }

  lemma FinishNumber(t: Scanned, a: Accept, weak: bool)
    requires t.Scanned? && KindOf(t.num, t.kind) != Unknown ==> |Lead(t.num, t.kind)| == 12 && AllDigits(Lead(t.num, t.kind))
    requires Finish(t, a, weak).Number?
    ensures t.Scanned? && KindOf(t.num, t.kind) != Unknown && Finish(t, a, weak).ean / 2 == Value(WithCheck(Lead(t.num, t.kind)))
  {
    hide CheckFits, Accepted, WithCheck, Value, Lead;
  }

  lemma {:induction false} WeightedPrefix(a: string, b: string, n: nat)
    requires n <= |a| && n <= |b| && a[..n] == b[..n] && AllDigits(a) && AllDigits(b)
    ensures Weighted(a, n) == Weighted(b, n)
  {
    if n > 0 {
      assert a[..n][..n - 1] == a[..n - 1] && b[..n][..n - 1] == b[..n - 1];
      assert a[n - 1] == a[..n][n - 1] == b[..n][n - 1];
      WeightedPrefix(a, b, n - 1);
    }
  }

  lemma WithCheckChecked(lead: string)
    requires |lead| == 12 && AllDigits(lead)
    ensures |WithCheck(lead)| == 13 && Checked(WithCheck(lead))
  {
    var ds := WithCheck(lead);
    assert ds[..12] == lead && lead[..12] == lead;
    WeightedPrefix(ds, lead, 12);
    CheckedIff(ds);
  }

  /** Thirteen digits are the digits of their value. */
  lemma {:induction false} ValueOfDigits(ds: string)
    requires AllDigits(ds)
    ensures Value(ds) < Pow10(|ds|) && Digits(Value(ds), |ds|) == ds
  {
    if ds != [] {
      var rest, c := ds[..|ds| - 1], ds[|ds| - 1];
      ValueOfDigits(rest);
      assert Value(ds) == 10 * Value(rest) + DigitVal(c);
      assert Value(ds) / 10 == Value(rest) && Value(ds) % 10 == DigitVal(c);
      assert ds == rest + [c];
    }
  }

  // ----- the reader at work -------------------------------------------------------

  method StrToEan(num: string) returns (ean: nat)
    ensures ean == 2 * Value(num)
  {
    var v := 0;
    for i := 0 to |num|
      invariant v == Value(num[..i])
    {
      assert num[..i + 1][..i] == num[..i];
      if IsDigit(num[i]) {
        v := 10 * v + DigitVal(num[i]);
      }
    }
    assert num[..|num|] == num;
    return 2 * v;
  }

  lemma PrefixDigits(s: string, k: nat, n: nat)
    requires k <= n <= |s| && AllDigits(s[..n])
    ensures AllDigits(s[..k]) && (k < n ==> IsDigit(s[k]))
  {
    assert s[..n][..k] == s[..k];
    if k < n { assert s[..n][k] == s[k]; }
  }

  lemma DescendingStep(ds: string, size: nat, n: nat)
    requires n <= |ds| && n < size && AllDigits(ds[..n])
    ensures n == 0 ==> Descending(ds, size, n) == 0
    ensures n + 1 <= |ds| && n + 1 < size && AllDigits(ds[..n + 1]) && IsDigit(ds[n]) ==>
      Descending(ds, size, n + 1) == Descending(ds, size, n) + (size - n) * DigitVal(ds[n])
  {
  }

  /** Weights the digits from size down in one pass. */
  method WeightCheckDig(num: string, size: nat) returns (weight: nat)
    requires size >= 1 && |num| >= size - 1 && AllDigits(num[..size - 1])
    ensures weight == WeightCheck(num, size)
  {
    weight := 0;
    var k := 0;
    hide Descending;
    PrefixDigits(num, 0, size - 1);
    assert Descending(num, size, 0) == 0 by { DescendingStep(num, size, 0); }
    while k < size - 1
      invariant k <= size - 1 && AllDigits(num[..k]) && weight == Descending(num, size, k)
    {
      PrefixDigits(num, k, size - 1);
      PrefixDigits(num, k + 1, size - 1);
      DescendingStep(num, size, k);
      weight := weight + (size - k) * DigitVal(num[k]);
      k := k + 1;
    }
    weight := weight % 11;
    if weight != 0 {
      weight := 11 - weight;
    }
  }

  /** Collects the characters of the number in a buffer, from place 3 on. */
  method Collect(s: string, buf: array<char>) returns (t: Scanned)
    requires buf.Length == 17
    modifies buf
    ensures t == Scan(s, 0, [], Unknown, false, true)
    ensures t.Scanned? ==> |t.num| <= 13 && buf[3..3 + |t.num|] == t.num
  {
    var i, length := 0, 0;
    var kind, magic, valid := Unknown, false, true;
    ghost var num := [];
    assert buf[3..3] == [];
    hide Scan;
    while At(s, i) != '\0'
      invariant length == |num| <= 13 && buf[3..3 + length] == num
      invariant Scan(s, i, num, kind, magic, valid) == Scan(s, 0, [], Unknown, false, true)
      decreases if i < |s| then |s| - i else 0
    {
      var c, last := At(s, i), IsLast(s, i);
      ghost var t' := Take(s, i, num, kind, magic, valid);
      ScanStep(s, i, num, kind, magic, valid);
      var digit := IsDigit(c);
      if c == '?' && last {
        magic, digit := true, true;
      }
      var store, put := false, c;
      if length == 0 && (c == 'M' || c == 'm') {
        if !kind.Unknown? { return Stopped(Syntax); }
        kind, store, put := Ismn, true, 'M';
      } else if length == 7 && (digit || IsX(c)) && last {
        if !kind.Unknown? { return Stopped(Syntax); }
        kind, store, put := Issn, true, Upper(c);
      } else if length == 9 && (digit || IsX(c)) && last {
        if !kind.Unknown? && !kind.Ismn? { return Stopped(Syntax); }
        kind, store, put := if kind.Unknown? then Isbn else kind, true, Upper(c);
      } else if length == 11 && digit && last {
        if !kind.Unknown? { return Stopped(Syntax); }
        kind, store := Upc, true;
      } else if c == '-' || c == ' ' {
      } else if c == '!' && At(s, i + 1) == '\0' {
        valid, magic := valid && magic, true;
      } else if !digit {
        return Stopped(Syntax);
      } else {
        store := true;
      }
      if store {
        buf[3 + length] := put;
        length := length + 1;
        if length > 13 { return Stopped(TooBig); }
        assert buf[3..3 + length] == num + [put];
        num := num + [put];
      }
      assert t' == Scanned(num, kind, magic, valid);
      i := i + 1;
    }
    ScanEnd(s, i, num, kind, magic, valid);
    t := Scanned(buf[3..3 + length], kind, magic, valid);
  }

  lemma ScanStep(s: string, i: nat, num: string, kind: Kind, magic: bool, valid: bool)
    requires At(s, i) != '\0'
    ensures var t := Take(s, i, num, kind, magic, valid);
      Scan(s, i, num, kind, magic, valid) == if t.Stopped? then t else Scan(s, i + 1, t.num, t.kind, t.magic, t.valid)
  {
    hide Take;
  }

  lemma ScanEnd(s: string, i: nat, num: string, kind: Kind, magic: bool, valid: bool)
    requires At(s, i) == '\0'
    ensures Scan(s, i, num, kind, magic, valid) == Scanned(num, kind, magic, valid)
  {
  }

  /** Completes the twelve leading digits in the buffer and says where they start. */
  method Complete(buf: array<char>, num: string, kind: Kind) returns (start: nat)
    requires buf.Length == 17 && |num| <= 13 && buf[3..3 + |num|] == num && KindOf(num, kind) != Unknown
    requires |Lead(num, kind)| == 12
    modifies buf
    ensures start <= 3 && buf[start..start + 12] == Lead(num, kind)
  {
    match KindOf(num, kind) {
      case Ean =>
        start := 3;
      case Upc =>
        buf[2], start := '0', 2;
      case Ismn =>
        buf[0], buf[1], buf[2], buf[3] := '9', '7', '9', '0';
        start := 0;
      case Isbn =>
        buf[0], buf[1], buf[2] := '9', '7', '8';
        start := 0;
      case Issn =>
        buf[10], buf[11], buf[0], buf[1], buf[2] := '0', '0', '9', '7', '7';
        start := 0;
    }
  }

  method CheckOf(num: string, kind: Kind, lead: string) returns (fits: bool)
    requires KindOf(num, kind) != Unknown && lead == Lead(num, kind) && |lead| == 12 && AllDigits(lead)
    requires KindOf(num, kind).Isbn? ==> AllDigits(num[..9])
    requires KindOf(num, kind).Issn? ==> AllDigits(num[..7])
    ensures fits <==> CheckFits(num, kind)
  {
    var check := GivenCheck(num[|num| - 1]);
    var rcheck;
    if KindOf(num, kind).Isbn? {
      rcheck := WeightCheckDig(num, 10);
    } else if KindOf(num, kind).Issn? {
      rcheck := WeightCheckDig(num, 8);
    } else {
      rcheck := CheckDig(lead);
    }
    return rcheck == check;
  }

  lemma LeadParts(num: string, kind: Kind)
    requires KindOf(num, kind) != Unknown && AllDigits(Lead(num, kind))
    ensures KindOf(num, kind).Isbn? ==> AllDigits(num[..9])
    ensures KindOf(num, kind).Issn? ==> AllDigits(num[..7])
  {
    var lead := Lead(num, kind);
    if KindOf(num, kind).Isbn? || KindOf(num, kind).Issn? {
      forall k | 0 <= k < (if |num| == 10 then 9 else 7) ensures IsDigit(num[k]) {
        assert lead[3 + k] == num[k];
      }
    }
  }

  /** Reads a number from text. */
  method ReadEan(s: string, a: Accept, weak: bool) returns (r: Outcome)
    ensures r == StringToEan(s, a, weak)
  {
    hide Scan, CheckFits, Accepted, Value;
    ScanLead(s);
    var buf := new char[17](_ => ' ');
    var t := Collect(s, buf);
    if t.Stopped? {
      return Failed(t.why);
    }
    if KindOf(t.num, t.kind).Unknown? {
      return Failed(Syntax);
    }
    ghost var lead := Lead(t.num, t.kind);
    var start := Complete(buf, t.num, t.kind);
    hide Lead, KindOf;
    if !Accepted(a, KindOf(t.num, t.kind), buf[start..start + 12]) {
      return Failed(WrongType);
    }
    LeadParts(t.num, t.kind);
    var fits := CheckOf(t.num, t.kind, buf[start..start + 12]);
    var valid := t.valid && (fits || t.magic);
    var c := CheckDig(buf[start..start + 12]);
    buf[start + 12] := DigitChar(c);
    assert buf[start..start + 13] == lead + [DigitChar(c)];
    if !valid && !t.magic && !weak {
      return Failed(BadCheckDigit);
    }
    var ean := StrToEan(buf[start..start + 13]);
    return Number(ean + if valid then 0 else 1);
  }
}
