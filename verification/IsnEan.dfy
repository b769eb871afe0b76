/** EAN13 numbers: printing with hyphens, reading with tolerance, and the round
    trip between the two. */
module IsnEan {
  import opened IsnHyphen

  // ----- digits --------------------------------------------------------------

  function Pow10(k: nat): nat {
    if k == 0 then 1 else 10 * Pow10(k - 1)
  }

  function DigitChar(d: nat): (c: char)
    requires d < 10
    ensures IsDigit(c)
  {
    (d + '0' as int) as char
  }

  function DigitVal(c: char): (d: nat)
    requires IsDigit(c)
    ensures d < 10 && DigitChar(d) == c
  {
    c as int - '0' as int
  }

  /** The last k digits of n, most significant first. */
  function Digits(n: nat, k: nat): (r: string)
    ensures |r| == k && AllDigits(r)
  {
    if k == 0 then [] else Digits(n / 10, k - 1) + [DigitChar(n % 10)]
  }

  /** n with its last k digits dropped. */
  function Shift(n: nat, k: nat): nat {
    if k == 0 then n else Shift(n, k - 1) / 10
  }

  lemma {:induction false} ShiftDown(n: nat, k: nat)
    ensures Shift(n / 10, k) == Shift(n, k + 1)
  {
    if k > 0 { ShiftDown(n, k - 1); }
  }

  lemma {:induction false} DigitAt(n: nat, k: nat, j: nat)
    requires j < k
    ensures Digits(n, k)[j] == DigitChar(Shift(n, k - 1 - j) % 10)
  {
    if j < k - 1 {
      DigitAt(n / 10, k - 1, j);
      ShiftDown(n, k - 2 - j);
    }
  }

  lemma {:induction false} ShiftGone(n: nat, k: nat)
    requires n < Pow10(k)
    ensures Shift(n, k) == 0
  {
    if k > 0 {
      ShiftGone(n / 10, k - 1);
      ShiftDown(n, k - 1);
    }
  }

  lemma ZeroStays(n: nat, k: nat, m: nat)
    requires k <= m && Shift(n, k) == 0
    ensures Shift(n, m) == 0
  {
    if k < m { ZeroStays(n, k, m - 1); }
  }

  /** The number a text's digits stand for; other characters do not count. */
  function Value(s: string): nat {
    if s == [] then 0
    else
      var v, c := Value(s[..|s| - 1]), s[|s| - 1];
      if IsDigit(c) then 10 * v + DigitVal(c) else v
  }

  lemma {:induction false} DigitsValue(n: nat, k: nat)
    requires n < Pow10(k)
    ensures Value(Digits(n, k)) == n
  {
    if k > 0 {
      DigitsValue(n / 10, k - 1);
      var s := Digits(n, k);
      assert s[..|s| - 1] == Digits(n / 10, k - 1);
    }
  }

  // ----- the check digit -----------------------------------------------------

  /** Weighted sum of the first n digits, weights 1 and 3 in turn. */
  function Weighted(ds: string, n: nat): nat
    requires n <= |ds| && AllDigits(ds)
  {
    if n == 0 then 0 else Weighted(ds, n - 1) + DigitVal(ds[n - 1]) * if n % 2 == 1 then 1 else 3
  }

  /** The digit that makes the weighted sum of thirteen digits a multiple of ten. */
  function CheckDigit(ds: string): (c: nat)
    requires |ds| >= 12 && AllDigits(ds)
    ensures c < 10 && (Weighted(ds, 12) + c) % 10 == 0
  {
    var w := Weighted(ds, 12) % 10;
    if w == 0 then 0 else 10 - w
  }

  /** Thirteen digits whose last is the right check digit. */
  predicate Checked(ds: string) {
    |ds| == 13 && AllDigits(ds) && Weighted(ds, 13) % 10 == 0
  }

  lemma CheckedIff(ds: string)
    requires |ds| == 13 && AllDigits(ds)
    ensures Checked(ds) <==> ds[12] == DigitChar(CheckDigit(ds))
  {
    var c, w := DigitVal(ds[12]), Weighted(ds, 12);
    assert Weighted(ds, 13) == w + c;
    if Checked(ds) {
      assert (w + c) % 10 == 0 && (w + CheckDigit(ds)) % 10 == 0;
      assert c == CheckDigit(ds);
    }
  }

  /** The sums the check digit is computed from, in one pass over the number. */
  method CheckDig(num: string) returns (check: nat)
    requires |num| >= 12 && AllDigits(num)
    ensures check == CheckDigit(num)
  {
    var sum, sum3 := 0, 0;
    var pos := 0;
    while pos < 12
      invariant pos <= 12 && sum + 3 * sum3 == Weighted(num, pos)
    {
      if pos % 2 == 1 {
        sum3 := sum3 + DigitVal(num[pos]);
      } else {
        sum := sum + DigitVal(num[pos]);
      }
      pos := pos + 1;
    }
    check := (sum + 3 * sum3) % 10;
    if check != 0 {
      check := 10 - check;
    }
  }
}
