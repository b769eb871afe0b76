/** The short forms as they are made: in the buffer that holds the long form. */
module IsnCrop {
  import opened IsnHyphen
  import opened IsnEan
  import opened IsnRead
  import opened IsnPrint
  import opened IsnShort

  /** The buffer holds the string s and its NUL. */
  ghost predicate Holds(buf: seq<char>, s: string) {
    |s| < |buf| && buf[..|s|] == s && buf[|s|] == '\0' && forall i :: 0 <= i < |s| ==> s[i] != '\0'
  }

  lemma HoldsAt(buf: seq<char>, s: string, i: nat)
    requires Holds(buf, s) && i <= |s|
    ensures buf[i] == if i < |s| then s[i] else '\0'
    ensures buf[i] == '\0' <==> i == |s|
  {
    if i < |s| { assert buf[..|s|][i] == s[i]; }
  }

  /** Drops the first k characters of the string. */
  method Strip(buf: array<char>, k: nat, ghost s: string)
    requires Holds(buf[..], s) && k <= |s|
    modifies buf
    ensures Holds(buf[..], s[k..])
  {
    ghost var was := buf[..];
    forall i | 0 <= i <= |s| ensures was[i] == (if i < |s| then s[i] else '\0') && (was[i] == '\0' <==> i == |s|) {
      HoldsAt(was, s, i);
    }
    var _ := Compress(buf, 0, k, |s|);
    assert buf[..|s| - k] == s[k..];
  }

  /** Weights the digits among the characters of the string, from size down. */
  method WeightBuffer(buf: array<char>, size: nat, ghost s: string) returns (weight: nat)
    requires Holds(buf[..], s) && size >= 1 && |DigitsIn(s)| >= size - 1 && AllDigits(DigitsIn(s))
    ensures weight == WeightCheck(DigitsIn(s), size)
  {
    weight := 0;
    var i, left := 0, size;
    ghost var ds, k := DigitsIn(s), 0;
    assert s[..0] == [] && s[..|s|] == s;
    DescendingStep(ds, size, 0);
    PrefixOf(ds, 0);
    hide Descending, Holds, AllDigits;
    HoldsAt(buf[..], s, 0);
    while buf[i] != '\0' && left > 1
      invariant i <= |s| && buf[i] == (if i < |s| then s[i] else '\0') && (buf[i] == '\0' <==> i == |s|)
      invariant 1 <= left <= size && k == size - left && k == |DigitsIn(s[..i])| && DigitsIn(s[..i]) <= ds
      invariant AllDigits(ds[..k]) && weight == Descending(ds, size, k)
      decreases |s| - i
    {
      DigitsStep(s, i);
      DigitsPrefix(s, i + 1);
      HoldsAt(buf[..], s, i + 1);
      if IsDigit(buf[i]) {
        PrefixOf(ds, k + 1);
        DescendingStep(ds, size, k);
        weight := weight + left * DigitVal(buf[i]);
        left, k := left - 1, k + 1;
      }
      i := i + 1;
    }
    weight := weight % 11;
    if weight != 0 {
      weight := 11 - weight;
    }
  }

  lemma PrefixOf(ds: string, k: nat)
    requires AllDigits(ds) && k <= |ds|
    ensures AllDigits(ds[..k])
  {
  }

  /** One more character has its digit after those before it. */
  lemma DigitsStep(s: string, i: nat)
    requires i < |s|
    ensures DigitsIn(s[..i + 1]) == DigitsIn(s[..i]) + if IsDigit(s[i]) then [s[i]] else []
  {
    var t := s[..i + 1];
    assert t[..|t| - 1] == s[..i] && t[|t| - 1] == s[i];
  }

  lemma DigitsPrefix(s: string, n: nat)
    requires n <= |s|
    ensures DigitsIn(s[..n]) <= DigitsIn(s)
  {
    hide DigitsIn;
    var a, b := s[..n], s[n..];
    assert s == a + b;
    DigitsInJoin(a, b);
  }

  /** The last digit of the string: from its NUL back. */
  method LastDigit(buf: array<char>, ghost s: string, ghost c: char) returns (aux: nat)
    requires Holds(buf[..], s) && DigitsIn(s) != []
    ensures aux < |s| && SetLastDigit(s, c) == s[aux := c]
  {
    var end := 0;
    HoldsAt(buf[..], s, 0);
    while buf[end] != '\0'
      invariant end <= |s| && (buf[end] == '\0' <==> end == |s|)
      decreases |s| - end
    {
      HoldsAt(buf[..], s, end + 1);
      end := end + 1;
    }
    NotEmpty(s);
    aux := end - 1;
    HoldsAt(buf[..], s, aux);
    assert s[..|s|] == s;
    while !IsDigit(buf[aux])
      invariant aux < |s| && buf[aux] == s[aux] && DigitsIn(s[..aux + 1]) != []
      invariant SetLastDigit(s, c) == SetLastDigit(s[..aux + 1], c) + s[aux + 1..]
      decreases aux
    {
      LastStep(s, aux, c);
      HoldsAt(buf[..], s, aux - 1);
      aux := aux - 1;
    }
    LastFound(s, aux, c);
  }

  /** Puts a character in place of the last digit. */
  method PutCheck(buf: array<char>, c: char, ghost s: string)
    requires Holds(buf[..], s) && DigitsIn(s) != [] && c != '\0'
    modifies buf
    ensures Holds(buf[..], SetLastDigit(s, c))
  {
    var aux := LastDigit(buf, s, c);
    HoldsPut(buf[..], s, aux, c);
    ghost var was := buf[..];
    buf[aux] := c;
    assert buf[..] == was[aux := c];
  }

  lemma NotEmpty(s: string)
    requires DigitsIn(s) != []
    ensures s != []
  {
  }

  lemma LastStep(s: string, i: nat, c: char)
    requires i < |s| && !IsDigit(s[i]) && DigitsIn(s[..i + 1]) != []
    requires SetLastDigit(s, c) == SetLastDigit(s[..i + 1], c) + s[i + 1..]
    ensures i > 0 && DigitsIn(s[..i]) != [] && SetLastDigit(s, c) == SetLastDigit(s[..i], c) + s[i..]
  {
    assert s[..i + 1][..i] == s[..i];
    assert s[i..] == [s[i]] + s[i + 1..];
    NotEmpty(s[..i]);
  }

  lemma LastFound(s: string, i: nat, c: char)
    requires i < |s| && IsDigit(s[i]) && SetLastDigit(s, c) == SetLastDigit(s[..i + 1], c) + s[i + 1..]
    ensures SetLastDigit(s, c) == s[i := c]
  {
    assert s[..i + 1][..i] == s[..i];
    assert s[i := c] == s[..i] + [c] + s[i + 1..];
  }

  lemma HoldsPut(buf: seq<char>, s: string, i: nat, c: char)
    requires Holds(buf, s) && i < |s| && c != '\0'
    ensures Holds(buf[i := c], s[i := c])
  {
  }

  // ----- the four short forms -------------------------------------------------------------

  predicate LongEnough(text: string) {
    |text| >= 12 && |DigitsIn(text[4..])| >= 9 && AllDigits(DigitsIn(text[4..]))
  }

  method CropIsbn(buf: array<char>, ghost text: string)
    requires Holds(buf[..], text) && LongEnough(text)
    modifies buf
    ensures Holds(buf[..], ShortIsbn(text))
  {
    assert buf[..|text|][..4] == text[..4];
    if buf[..4] == "978-" {
      hide Holds, DigitsIn, SetLastDigit;
      Strip(buf, 4, text);
      var check := WeightBuffer(buf, 10, text[4..]);
      PutCheck(buf, CheckChar(check), text[4..]);
    }
  }

  method CropIsmn(buf: array<char>, ghost text: string)
    requires Holds(buf[..], text) && |text| >= 5
    modifies buf
    ensures Holds(buf[..], ShortIsmn(text))
  {
    Strip(buf, 4, text);
    HoldsPut(buf[..], text[4..], 0, 'M');
    buf[0] := 'M';
    assert text[4..][0 := 'M'] == "M" + text[5..];
  }

  method CropIssn(buf: array<char>, ghost text: string)
    requires Holds(buf[..], text) && LongEnough(text) && buf.Length >= 10
    modifies buf
    ensures Holds(buf[..], ShortIssn(text))
  {
    ghost var rest := text[4..];
    assert text[4..12] == rest[..8];
    Strip(buf, 4, text);
    hide DigitsIn;
    var check := WeightBuffer(buf, 8, rest);
    ghost var was := buf[..];
    assert was[..8] == was[..|rest|][..8];
    buf[8] := CheckChar(check);
    buf[9] := '\0';
    assert buf[..9] == was[..8] + [CheckChar(check)];
  }

  method CropUpc(buf: array<char>, ghost text: string)
    requires Holds(buf[..], text) && 1 <= |text| && buf.Length >= 13
    modifies buf
    ensures Holds(buf[..], ShortUpc(text))
  {
    Dehyphenate(buf, text);
    ghost var s := DigitsIn(text[1..]);
    ghost var was := buf[..];
    buf[12] := '\0';
    if |s| > 12 { assert buf[..12] == was[..|s|][..12]; } else { assert buf[..|s|] == was[..|s|]; }
  }

  /** Moves the digits from the second character on to the front. */
  method Dehyphenate(buf: array<char>, ghost text: string)
    requires Holds(buf[..], text) && 1 <= |text|
    modifies buf
    ensures Holds(buf[..], DigitsIn(text[1..]))
  {
    ghost var was := buf[..];
    forall k | 0 <= k <= |text| ensures was[k] == (if k < |text| then text[k] else '\0') && (was[k] == '\0' <==> k == |text|) {
      HoldsAt(was, text, k);
    }
    var o, i := 0, 1;
    ghost var rest := text[1..];
    assert rest[..0] == [] && rest[..|rest|] == rest;
    while buf[i] != '\0'
      invariant 1 <= i <= |text| && o < i && o == |DigitsIn(rest[..i - 1])| && buf[..o] == DigitsIn(rest[..i - 1])
      invariant forall k :: i <= k <= |text| ==> buf[k] == was[k]
      decreases |text| - i
    {
      DigitsStep(rest, i - 1);
      ghost var b := buf[..];
      if IsDigit(buf[i]) {
        buf[o] := buf[i];
        o := o + 1;
        assert buf[..o] == b[..o - 1] + [rest[i - 1]];
      }
      i := i + 1;
    }
    ghost var b := buf[..];
    buf[o] := '\0';
    assert buf[..o] == b[..o];
    DigitsAreNoNuls(rest);
  }

  lemma DigitsAreNoNuls(s: string)
    ensures forall i :: 0 <= i < |DigitsIn(s)| ==> DigitsIn(s)[i] != '\0'
  {
    AllDigitsIn(s);
    hide DigitsIn;
  }

  /** Shortens the long form of a number in place. */
  method Crop(buf: array<char>, kind: Kind, country: bool, ghost text: string, ghost ds: string)
    requires Holds(buf[..], text) && buf.Length == 19 && |ds| == 13 && kind == SubKind(ds) && (country ==> LongEnough(text))
    modifies buf
    ensures Holds(buf[..], Short(text, ds, country))
  {
    hide Holds, DigitsIn, ShortIsbn, ShortIsmn, ShortIssn, ShortUpc;
    if country {
      match kind
      case Isbn => CropIsbn(buf, text);
      case Ismn => CropIsmn(buf, text);
      case Issn => CropIssn(buf, text);
      case Upc => CropUpc(buf, text);
      case _ =>
    }
  }

  // ----- the round trip -------------------------------------------------------------------

  lemma LongHolds(buf: seq<char>, body: string, ds: string, flag: bool)
    requires Shows(body, ds) && |body + Mark(flag)| < |buf|
    requires forall i :: 0 <= i < |buf| ==> buf[i] == if i < |body + Mark(flag)| then (body + Mark(flag))[i] else '\0'
    ensures Holds(buf, body + Mark(flag))
  {
    hide DigitsIn;
  }

  /** Prints a number in the short form of its kind. */
  method IsnOut(ean: nat, t: Tables, ghost weak: bool) returns (text: string, ghost country: bool)
    requires TablesOk(t) && t.issn == IssnTable() && ean / 2 <= MAXEAN && Checked(Digits(ean / 2, 13))
    ensures var ds := Digits(ean / 2, 13);
      if country then exists c: nat :: HasRow(ds[..12], t.ean13, c) else NoRow(ds[..12], t.ean13, 3)
    ensures var r := StringToEan(text, Only(SubKind(Digits(ean / 2, 13))), weak);
      && (r == Number(ean) <==> Survives(Digits(ean / 2, 13), ean % 2 == 1, country))
      && (!Survives(Digits(ean / 2, 13), ean % 2 == 1, country) ==> r.Number? && r.ean % 2 == 0)
  {
    hide Checked, IsBody, Digits, StringToEan, DigitsIn, TablesOk, Survives, HasRow, NoRow, Short, Holds, Shows;
    var p := EanToString(ean, t);
    ghost var ds, flag := Digits(ean / 2, 13), ean % 2 == 1;
    ghost var body :| p.text == body + Mark(flag) && IsBody(body, ds, t, p.country);
    country := p.country;
    BodyShows(body, ds, t, p.country);
    ShortReadsBack(body, ds, flag, t, p.country, weak);
    MaxIsPower();
    DigitsValue(ean / 2, 13);
    var long := p.text;
    var buf := new char[19](i => if 0 <= i < |long| then long[i] else '\0');
    LongHolds(buf[..], body, ds, flag);
    var digits := Digits(ean / 2, 13);
    Crop(buf, SubKind(digits), p.country, long, ds);
    text := Contents(buf, Short(long, ds, country));
  }

  /** The string a buffer holds. */
  method Contents(buf: array<char>, ghost s: string) returns (text: string)
    requires Holds(buf[..], s)
    ensures text == s
  {
    forall i | 0 <= i < |s| ensures buf[i] != '\0' { HoldsAt(buf[..], s, i); }
    text := TextOf(buf, |s|);
  }

  /** Printing a number in the short form of its kind, and reading the text as that
      kind, gives the number back if and only if it survives. */
  method ShortRoundTrip(ean: nat, t: Tables, weak: bool) returns (r: Outcome, ghost country: bool)
    requires TablesOk(t) && t.issn == IssnTable() && ean / 2 <= MAXEAN && Checked(Digits(ean / 2, 13))
    ensures var ds := Digits(ean / 2, 13);
      if country then exists c: nat :: HasRow(ds[..12], t.ean13, c) else NoRow(ds[..12], t.ean13, 3)
    ensures r == Number(ean) <==> Survives(Digits(ean / 2, 13), ean % 2 == 1, country)
    ensures !Survives(Digits(ean / 2, 13), ean % 2 == 1, country) ==> r.Number? && r.ean % 2 == 0
  {
    hide Checked, Digits, StringToEan, TablesOk, Survives, HasRow, NoRow;
    var text;
    text, country := IsnOut(ean, t, weak);
    r := ReadEan(text, Only(SubKind(Digits(ean / 2, 13))), weak);
  }
}
