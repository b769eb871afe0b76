/**
 Bloom signatures: the Park-Miller generator that chooses bits, the bits a
 column value sets, and why a row's signature covers the signature of any
 scan keys the row satisfies.
 */
module BloomSign {

  const M: int := 0x7fff_ffff
  const INT32_MIN := -0x8000_0000
  const SIGNWORDBITS: int := 16

  /** Division and remainder that truncate toward zero, as in C. */
  function TruncDiv(a: int, b: int): int
    requires b > 0
  {
    if a >= 0 then a / b else -((-a) / b)
  }

  function TruncMod(a: int, b: int): int
    requires b > 0
  {
    a - b * TruncDiv(a, b)
  }

  predicate IsInt32(v: int) { INT32_MIN <= v <= M }

  /** The next state of the generator: 7^5 * x mod 2^31 - 1. */
  function NextRand(next: int): (r: int)
    ensures 0 <= r < M
  {
    (16807 * next) % M
  }

  /** Schrage's decomposition is congruent to the product it avoids. */
  lemma Decomposition(next: int, hi: int, lo: int)
    requires next == 127773 * hi + lo
    ensures 16807 * next == 16807 * lo - 2836 * hi + M * hi
  {
  }

  lemma ModOfSum(x: int, k: int)
    requires 0 <= x < M
    ensures (x + M * k) % M == x
  {
    var q := (x + M * k) / M;
    var r := (x + M * k) % M;
    assert x - r == M * (q - k);
    if q != k { MultipleIsLarge(q - k); }
  }

  lemma MultipleIsLarge(d: int)
    requires d != 0
    ensures M * d >= M || M * d <= -M
  {
  }

  /** 16807 is invertible modulo 2^31 - 1, so only 0 leads to 0. */
  lemma OnlyZeroGivesZero(next: int)
    requires -M < next < M && NextRand(next) == 0
    ensures next == 0
  {
    var q := (16807 * next) / M;
    assert 16807 * next == M * q;
    assert 1407677000 * 16807 == 1 + M * 11017;
    assert next == M * (1407677000 * q - 11017 * next);
    var d := 1407677000 * q - 11017 * next;
    if d != 0 { MultipleIsLarge(d); }
  }

  /** The state after seeding. It stays inside the generator's range, and it is
      the absorbing state 0 for exactly two seeds. */
  function Srand(seed: int): (n: int)
    requires 0 <= seed < 0x1_0000_0000
    ensures -M < n < M
    ensures n == 0 <==> seed == 0xffff_ffff || seed == 0x8000_0001
  {
    TruncMod(if seed >= 0x8000_0000 then seed - 0x1_0000_0000 else seed, 0x7ffffffe) + 1
  }

  /** The generator's one static variable. */
  class Generator {
    var next: int

    constructor ()
      ensures next == 0
    {
      next := 0;
    }

    method MySrand(seed: int)
      requires 0 <= seed < 0x1_0000_0000
      modifies this
      ensures next == Srand(seed)
    {
      next := if seed >= 0x8000_0000 then seed - 0x1_0000_0000 else seed;
      next := TruncMod(next, 0x7ffffffe) + 1;
    }

    /** One draw. Every intermediate value is an int32. */
    method MyRand() returns (r: int)
      requires -M < next < M
      modifies this
      ensures next == NextRand(old(next)) && r == next - 1
      ensures old(next) != 0 ==> 0 <= r <= M - 2
      ensures old(next) == 0 ==> r == -1 && next == 0
    {
      var hi := TruncDiv(next, 127773);
      var lo := TruncMod(next, 127773);
      assert -16807 <= hi <= 16807 && -127773 < lo < 127773;
      assert IsInt32(16807 * lo) && IsInt32(2836 * hi);
      var x := 16807 * lo - 2836 * hi;
      assert IsInt32(x);
      Decomposition(next, hi, lo);
      if x < 0 {
        x := x + M;
        assert IsInt32(x);
        ModOfSum(x, hi - 1);
      } else {
        ModOfSum(x, hi);
      }
      if x == 0 { OnlyZeroGivesZero(next); }
      next := x;
      return x - 1;
    }
  }

  // ----- signatures --------------------------------------------------------

  type Words = seq<bv16>

  function Zeros(len: nat): (w: Words)
    ensures |w| == len
  {
    seq(len, _ => 0)
  }

  function Or16(a: bv16, b: bv16): bv16 {
    a | b
  }

  function Bit(k: nat): bv16
    requires k < 16
  {
    (1 as bv16) << k
  }

  function SetBit(w: Words, n: nat): (r: Words)
    requires n < |w| * 16
    ensures |r| == |w|
  {
    w[n / 16 := Or16(w[n / 16], Bit(n % 16))]
  }

  /** 32-bit words as bits and as numbers. */
  function Bits(a: int): bv32
    requires 0 <= a < 0x1_0000_0000
  {
    a as bv32
  }

  function Number(x: bv32): (r: int)
    ensures 0 <= r < 0x1_0000_0000
  {
    x as int
  }

  function Xor(x: bv32, y: bv32): bv32 {
    x ^ y
  }

  /** The word drawn for a column. */
  function ColumnWord(attno: nat): bv32
    requires attno < 32
  {
    OnlyZeroGivesZeroAuto(Srand(attno));
    Bits(NextRand(Srand(attno)) - 1)
  }

  /** The seed a column's value gives the generator: its hash mixed with the word
      drawn for the column. */
  function ValueSeed(attno: nat, hash: bv32): int
    requires attno < 32
    ensures 0 <= ValueSeed(attno, hash) < 0x1_0000_0000
  {
    Number(Xor(hash, ColumnWord(attno)))
  }

  /** The generator is not stuck at 0 for this value. */
  predicate Signable(attno: nat, hash: bv32)
    requires attno < 32
  {
    Srand(ValueSeed(attno, hash)) != 0
  }

  lemma BitsOfNumber(x: bv32)
    ensures Bits(Number(x)) == x
  {
  }

  lemma XorTwice(x: bv32, y: bv32)
    ensures Xor(Xor(x, y), y) == x
  {
  }

  lemma StuckSeeds(x: bv32)
    ensures Srand(Number(x)) == 0 <==> x == 0xffff_ffff || x == 0x8000_0001
  {
    hide Bits;
    BitsOfNumber(x);
    BitsOfNumber(0xffff_ffff);
    BitsOfNumber(0x8000_0001);
    assert Number(0xffff_ffff) == 0xffff_ffff && Number(0x8000_0001) == 0x8000_0001;
  }

  /** For each column the generator sticks for exactly two hashes. */
  lemma StuckHashes(attno: nat, hash: bv32)
    requires attno < 32
    ensures var word := ColumnWord(attno);
      && Xor(0xffff_ffff, word) != Xor(0x8000_0001, word)
      && (!Signable(attno, hash) <==> hash == Xor(0xffff_ffff, word) || hash == Xor(0x8000_0001, word))
  {
    hide Xor, Srand, ColumnWord, Number;
    var word := ColumnWord(attno);
    XorTwice(hash, word);
    XorTwice(0xffff_ffff, word);
    XorTwice(0x8000_0001, word);
    StuckSeeds(Xor(hash, word));
  }

  /** One of the two for the first column. */
  lemma StuckHash()
    ensures !Signable(0, 0xffff_be59)
  {
    hide Xor, Srand, ColumnWord, Number;
    FirstWord();
    XorFirst();
    StuckSeeds(0xffff_ffff);
  }

  lemma FirstWord()
    ensures ColumnWord(0) == 0x41a6
  {
    hide Bits;
    FirstState();
    FirstBits();
  }

  lemma FirstState()
    ensures Srand(0) == 1 && NextRand(1) == 16807
  {
  }

  lemma FirstBits()
    ensures Bits(16806) == 0x41a6
  {
  }

  lemma XorFirst()
    ensures Xor(0xffff_be59, 0x41a6) == 0xffff_ffff
  {
  }

  /** The words with count more bits drawn from state next. */
  function Draw(w: Words, next: int, count: nat): (r: Words)
    requires |w| > 0 && -M < next < M && next != 0
    ensures |r| == |w|
    decreases count
  {
    if count == 0 then w
    else
      var n := NextRand(next);
      OnlyZeroGivesZeroAuto(next);
      Draw(SetBit(w, (n - 1) % (|w| * 16)), n, count - 1)
  }

  lemma OnlyZeroGivesZeroAuto(next: int)
    requires -M < next < M && next != 0
    ensures NextRand(next) != 0
  {
    if NextRand(next) == 0 { OnlyZeroGivesZero(next); }
  }

  /** Sets one bit of a signature in place. */
  method SetBitAt(sign: array<bv16>, n: nat)
    requires n < sign.Length * SIGNWORDBITS
    modifies sign
    ensures sign[..] == SetBit(old(sign[..]), n)
  {
    hide Or16, Bit;
    sign[n / SIGNWORDBITS] := Or16(sign[n / SIGNWORDBITS], Bit(n % SIGNWORDBITS));
  }

  /** Draws bitSize bits from a generator that is not stuck. */
  method DrawBits(gen: Generator, sign: array<bv16>, bitSize: nat)
    requires 0 < sign.Length && -M < gen.next < M && gen.next != 0
    modifies gen, sign
    ensures sign[..] == Draw(old(sign[..]), old(gen.next), bitSize)
  {
    hide SetBit, NextRand, Draw;
    ghost var goal := Draw(sign[..], gen.next, bitSize);
    for j := 0 to bitSize
      invariant -M < gen.next < M && gen.next != 0
      invariant Draw(sign[..], gen.next, bitSize - j) == goal
    {
      DrawStep(sign[..], gen.next, bitSize - j);
      var draw := gen.MyRand();
      BitInRange(draw, sign.Length);
      SetBitAt(sign, draw % (sign.Length * SIGNWORDBITS));
    }
    DrawNone(sign[..], gen.next);
  }

  lemma DrawStep(w: Words, next: int, count: nat)
    requires |w| > 0 && -M < next < M && next != 0 && count > 0
    ensures var n := NextRand(next);
      && 0 < n < M && 0 <= (n - 1) % (|w| * SIGNWORDBITS) < |w| * SIGNWORDBITS
      && Draw(w, next, count) == Draw(SetBit(w, (n - 1) % (|w| * SIGNWORDBITS)), n, count - 1)
  {
    OnlyZeroGivesZeroAuto(next);
  }

  lemma DrawNone(w: Words, next: int)
    requires |w| > 0 && -M < next < M && next != 0
    ensures Draw(w, next, 0) == w
  {
  }

  lemma BitInRange(draw: int, len: nat)
    requires 0 <= draw && 0 < len
    ensures 0 <= draw % (len * SIGNWORDBITS) < len * SIGNWORDBITS
  {
  }

  /** What count draws of a stuck generator add: each is -1, which addresses the
      first word and asks for a shift by -1, whose result is the word stray. */
  function Strays(w: Words, count: nat, stray: bv16): (r: Words)
    requires |w| > 0
    ensures |r| == |w|
  {
    if count == 0 then w else w[0 := Or16(w[0], stray)]
  }

  lemma StrayAgain(w: Words, count: nat, stray: bv16)
    requires |w| > 0
    ensures Strays(Strays(w, count, stray), 1, stray) == Strays(w, count + 1, stray)
  {
    OrTwice(w[0], stray);
    hide Or16;
  }

  lemma OrTwice(a: bv16, b: bv16)
    ensures Or16(Or16(a, b), b) == Or16(a, b)
  {
  }

  lemma StrayBit(n: nat)
    requires n > 1
    ensures TruncMod(-1, n) == -1 && TruncDiv(-1, SIGNWORDBITS) == 0 && TruncMod(-1, SIGNWORDBITS) == -1
  {
  }

  /** Draws bitSize bits from a generator that is stuck. */
  method DrawStrays(gen: Generator, sign: array<bv16>, bitSize: nat, stray: bv16)
    requires 0 < sign.Length && gen.next == 0
    modifies gen, sign
    ensures sign[..] == Strays(old(sign[..]), bitSize, stray)
  {
    hide NextRand, Or16, TruncDiv, TruncMod;
    for j := 0 to bitSize
      invariant gen.next == 0 && sign[..] == Strays(old(sign[..]), j, stray)
    {
      var draw := gen.MyRand();
      var nBit := TruncMod(draw, sign.Length * SIGNWORDBITS);
      StrayBit(sign.Length * SIGNWORDBITS);
      assert nBit == -1 && TruncDiv(nBit, SIGNWORDBITS) == 0 && TruncMod(nBit, SIGNWORDBITS) == -1;
      ghost var w := sign[..];
      sign[0] := Or16(sign[0], stray);
      assert sign[..] == Strays(w, 1, stray);
      StrayAgain(old(sign[..]), j, stray);
    }
  }

  /** A signature with the bits of one column value added. */
  function Signed(w: Words, attno: nat, hash: bv32, bitSize: nat, stray: bv16): (r: Words)
    requires attno < 32 && |w| > 0
    ensures |r| == |w|
  {
    if Signable(attno, hash) then Draw(w, Srand(ValueSeed(attno, hash)), bitSize) else Strays(w, bitSize, stray)
  }

  /** Adds the bits of one column value. */
  method SignValue(gen: Generator, sign: array<bv16>, hash: bv32, attno: nat, bitSize: nat, stray: bv16)
    requires attno < 32 && 0 < sign.Length <= 256
    modifies gen, sign
    ensures sign[..] == Signed(old(sign[..]), attno, hash, bitSize, stray)
  {
    hide Draw, Srand, NextRand, Xor, Strays, Bits, Number;
    gen.MySrand(attno);
    OnlyZeroGivesZeroAuto(Srand(attno));
    var r := gen.MyRand();
    gen.MySrand(Number(Xor(hash, Bits(r))));
    if gen.next == 0 {
      DrawStrays(gen, sign, bitSize, stray);
    } else {
      DrawBits(gen, sign, bitSize);
    }
  }

  // ----- tuples and scans --------------------------------------------------

  function Or(a: Words, b: Words): (r: Words)
    requires |a| == |b|
    ensures |r| == |a|
  {
    seq(|a|, i requires 0 <= i < |a| => Or16(a[i], b[i]))
  }

  predicate HasBits(t: bv16, s: bv16) {
    t & s == s
  }

  /** Every bit of s is set in t, looked at word by word as a scan does. */
  predicate Covers(t: Words, s: Words) {
    |t| == |s| && forall i :: 0 <= i < |s| ==> HasBits(t[i], s[i])
  }

  lemma CoversOr(t: Words, a: Words, b: Words)
    requires |t| == |a| == |b|
    ensures Covers(t, Or(a, b)) <==> Covers(t, a) && Covers(t, b)
    ensures Covers(t, a) ==> Covers(Or(t, b), a)
    ensures Covers(Or(t, b), b)
  {
    hide Or16, HasBits;
    forall i | 0 <= i < |t|
      ensures HasBits(t[i], Or(a, b)[i]) <==> HasBits(t[i], a[i]) && HasBits(t[i], b[i])
      ensures HasBits(t[i], a[i]) ==> HasBits(Or(t, b)[i], a[i])
      ensures HasBits(Or(t, b)[i], b[i])
    {
      WordFacts(t[i], a[i], b[i]);
    }
  }

  lemma WordFacts(t: bv16, a: bv16, b: bv16)
    ensures HasBits(t, Or16(a, b)) <==> HasBits(t, a) && HasBits(t, b)
    ensures HasBits(t, a) ==> HasBits(Or16(t, b), a)
    ensures HasBits(Or16(t, b), b)
  {
    hide HasBits, Or16;
    if HasBits(t, Or16(a, b)) { HasEach(t, a, b); }
    if HasBits(t, a) && HasBits(t, b) { HasBoth(t, a, b); }
    if HasBits(t, a) { HasStill(t, a, b); }
    HasAdded(t, b);
  }

  lemma HasEach(t: bv16, a: bv16, b: bv16)
    requires HasBits(t, Or16(a, b))
    ensures HasBits(t, a) && HasBits(t, b)
  {
  }

  lemma HasBoth(t: bv16, a: bv16, b: bv16)
    requires HasBits(t, a) && HasBits(t, b)
    ensures HasBits(t, Or16(a, b))
  {
  }

  lemma HasStill(t: bv16, a: bv16, b: bv16)
    requires HasBits(t, a)
    ensures HasBits(Or16(t, b), a)
  {
  }

  lemma HasAdded(t: bv16, b: bv16)
    ensures HasBits(Or16(t, b), b)
  {
  }

  lemma ZeroFacts(t: bv16)
    ensures Or16(t, 0) == t && HasBits(t, 0)
  {
  }

  lemma OrSetBit(w: Words, z: Words, n: nat)
    requires |w| == |z| && n < |w| * 16
    ensures SetBit(Or(w, z), n) == Or(w, SetBit(z, n))
  {
    hide Or16, Bit;
    OrAssoc(w[n / 16], z[n / 16], Bit(n % 16));
  }

  lemma OrAssoc(a: bv16, b: bv16, c: bv16)
    ensures Or16(Or16(a, b), c) == Or16(a, Or16(b, c))
  {
  }

  /** Drawing adds the same bits to whatever is there already. */
  lemma {:induction false} DrawIsOr(w: Words, z: Words, next: int, count: nat)
    requires |w| == |z| > 0 && -M < next < M && next != 0
    ensures Draw(Or(w, z), next, count) == Or(w, Draw(z, next, count))
    decreases count
  {
    if count > 0 {
      var n := NextRand(next);
      OnlyZeroGivesZeroAuto(next);
      var bit := (n - 1) % (|w| * 16);
      OrSetBit(w, z, bit);
      DrawIsOr(w, SetBit(z, bit), n, count - 1);
    }
  }

  /** The bits of one column value on an empty signature. */
  function Mask(attno: nat, hash: bv32, bitSize: nat, len: nat, stray: bv16): (r: Words)
    requires attno < 32 && len > 0
    ensures |r| == len
  {
    Signed(Zeros(len), attno, hash, bitSize, stray)
  }

  /** Signing adds the same bits to whatever is there already. */
  lemma SignedIsMask(w: Words, attno: nat, hash: bv32, bitSize: nat, stray: bv16)
    requires attno < 32 && |w| > 0
    ensures Signed(w, attno, hash, bitSize, stray) == Or(w, Mask(attno, hash, bitSize, |w|, stray))
  {
    OrZeros(w);
    hide Draw, Srand, Or, ValueSeed, Strays;
    if Signable(attno, hash) {
      DrawIsOr(w, Zeros(|w|), Srand(ValueSeed(attno, hash)), bitSize);
    } else {
      StraysIsOr(w, bitSize, stray);
    }
  }

  lemma OrZeros(w: Words)
    ensures Or(w, Zeros(|w|)) == w
  {
    hide Or16;
    forall i | 0 <= i < |w| ensures Or16(w[i], 0) == w[i] { ZeroFacts(w[i]); }
  }

  lemma StraysIsOr(w: Words, count: nat, stray: bv16)
    requires |w| > 0
    ensures Strays(w, count, stray) == Or(w, Strays(Zeros(|w|), count, stray))
  {
    OrZeros(w);
    hide Or16;
    ZeroFirst(stray);
    var z := Strays(Zeros(|w|), count, stray);
    forall i | 0 <= i < |w| ensures Strays(w, count, stray)[i] == Or16(w[i], z[i]) { ZeroFacts(w[i]); }
  }

  lemma ZeroFirst(b: bv16)
    ensures Or16(0, b) == b
  {
  }

  /** A column value: its hash, or a null. */
  datatype Column = Null | Hash(h: bv32)

  /** The signature length in words, bitSize for each column, and what shifts by -1
      give where the generator sticks. */
  datatype Options = Options(len: nat, bits: seq<nat>, stray: (nat, bv32) -> bv16)

  predicate ValidOptions(o: Options) {
    0 < o.len <= 256 && |o.bits| <= 32
  }

  predicate ValidRow(o: Options, row: seq<Column>) {
    ValidOptions(o) && |row| == |o.bits|
  }

  /** The bits a value sets in column i. */
  function ColumnMask(o: Options, i: nat, h: bv32): (r: Words)
    requires ValidOptions(o) && i < |o.bits|
    ensures |r| == o.len
  {
    Mask(i, h, o.bits[i], o.len, o.stray(i, h))
  }

  /** The signature of the first n columns of a row; nulls add nothing. */
  function RowSign(o: Options, row: seq<Column>, n: nat): (r: Words)
    requires ValidRow(o, row) && n <= |row|
    ensures |r| == o.len
  {
    if n == 0 then Zeros(o.len)
    else if row[n - 1].Null? then RowSign(o, row, n - 1)
    else Or(RowSign(o, row, n - 1), ColumnMask(o, n - 1, row[n - 1].h))
  }

  lemma RowSignNone(o: Options, row: seq<Column>)
    requires ValidRow(o, row)
    ensures RowSign(o, row, 0) == Zeros(o.len)
  {
  }

  lemma RowSignStep(o: Options, row: seq<Column>, i: nat)
    requires ValidRow(o, row) && i < |row|
    ensures RowSign(o, row, i + 1) ==
      if row[i].Null? then RowSign(o, row, i) else Or(RowSign(o, row, i), ColumnMask(o, i, row[i].h))
  {
    hide ColumnMask, Or;
  }

  /** Forms the signature of a row. */
  method FormTuple(gen: Generator, o: Options, row: seq<Column>) returns (sign: Words)
    requires ValidRow(o, row)
    modifies gen
    ensures sign == RowSign(o, row, |row|)
  {
    hide Mask, Or, Signed, RowSign;
    var words := new bv16[o.len](_ => 0);
    assert words[..] == Zeros(o.len);
    RowSignNone(o, row);
    for i := 0 to |row|
      invariant words.Length == o.len && fresh(words)
      invariant words[..] == RowSign(o, row, i)
    {
      if row[i].Hash? {
        ghost var w := words[..];
        SignValue(gen, words, row[i].h, i, o.bits[i], o.stray(i, row[i].h));
        SignedIsMask(w, i, row[i].h, o.bits[i], o.stray(i, row[i].h));
      }
      RowSignStep(o, row, i);
    }
    return words[..];
  }

  /** An equality key of a scan. */
  datatype ScanKey = ScanKey(attno: nat, h: bv32)

  predicate ValidKeys(o: Options, keys: seq<ScanKey>) {
    ValidOptions(o) && forall i :: 0 <= i < |keys| ==> keys[i].attno < |o.bits|
  }

  /** The signature a scan looks for. */
  function ScanSign(o: Options, keys: seq<ScanKey>): (r: Words)
    requires ValidKeys(o, keys)
    ensures |r| == o.len
  {
    if keys == [] then Zeros(o.len)
    else
      var k := keys[|keys| - 1];
      Or(ScanSign(o, keys[..|keys| - 1]), ColumnMask(o, k.attno, k.h))
  }

  /** The row's columns equal the scan keys; equal values have equal hashes. */
  predicate RowSatisfies(row: seq<Column>, keys: seq<ScanKey>) {
    forall i :: 0 <= i < |keys| ==> keys[i].attno < |row| && row[keys[i].attno] == Hash(keys[i].h)
  }

  lemma {:induction false} RowCoversColumn(o: Options, row: seq<Column>, n: nat, i: nat)
    requires ValidRow(o, row) && i < n <= |row| && row[i].Hash?
    ensures Covers(RowSign(o, row, n), ColumnMask(o, i, row[i].h))
  {
    hide ColumnMask, Covers, Or;
    var mask := ColumnMask(o, i, row[i].h);
    if i < n - 1 { RowCoversColumn(o, row, n - 1, i); }
    if row[n - 1].Hash? {
      var last := ColumnMask(o, n - 1, row[n - 1].h);
      CoversOr(RowSign(o, row, n - 1), mask, last);
    }
  }

  /** The signature of a row covers the signature of any keys it satisfies, so a
      scan never overlooks it. */
  lemma {:induction false} RowCoversScan(o: Options, row: seq<Column>, keys: seq<ScanKey>)
    requires ValidRow(o, row) && RowSatisfies(row, keys)
    ensures ValidKeys(o, keys) && Covers(RowSign(o, row, |row|), ScanSign(o, keys))
  {
    var sign := RowSign(o, row, |row|);
    if keys == [] {
      CoversZeros(sign);
    } else {
      var k, rest := keys[|keys| - 1], keys[..|keys| - 1];
      RowCoversScan(o, row, rest);
      RowCoversColumn(o, row, |row|, k.attno);
      CoversOr(sign, ScanSign(o, rest), ColumnMask(o, k.attno, k.h));
    }
  }

  lemma CoversZeros(t: Words)
    ensures Covers(t, Zeros(|t|))
  {
    forall i | 0 <= i < |t| ensures HasBits(t[i], 0) {
      ZeroFacts(t[i]);
    }
  }

  /** A key as the scan is given it, and what comes of the keys. */
  datatype KeyArg = KeyArg(attno: nat, value: Column)
  datatype ScanStart = Nothing | Search(sign: Words)

  predicate NoNulls(args: seq<KeyArg>) {
    forall i :: 0 <= i < |args| ==> args[i].value.Hash?
  }

  function Keys(args: seq<KeyArg>): seq<ScanKey>
    requires NoNulls(args)
  {
    seq(|args|, i requires 0 <= i < |args| => ScanKey(args[i].attno, args[i].value.h))
  }

  lemma ScanSignStep(o: Options, args: seq<KeyArg>, i: nat)
    requires i < |args| && NoNulls(args[..i + 1]) && ValidKeys(o, Keys(args[..i]))
    requires args[i].attno < |o.bits|
    ensures NoNulls(args[..i]) && ValidKeys(o, Keys(args[..i + 1]))
    ensures ScanSign(o, Keys(args[..i + 1])) ==
      Or(ScanSign(o, Keys(args[..i])), ColumnMask(o, args[i].attno, args[i].value.h))
  {
    hide ColumnMask, Or;
    var keys := Keys(args[..i + 1]);
    assert keys[..i] == Keys(args[..i]);
  }

  /** Computes the signature to search for; a null key means nothing matches. */
  method FormScan(gen: Generator, o: Options, args: seq<KeyArg>) returns (r: ScanStart)
    requires ValidOptions(o) && forall i :: 0 <= i < |args| ==> args[i].attno < |o.bits|
    modifies gen
    ensures r.Search? <==> NoNulls(args)
    ensures r.Search? ==> ValidKeys(o, Keys(args)) && r.sign == ScanSign(o, Keys(args))
  {
    hide Mask, Or, Signed, ValidKeys, Keys, ScanSign;
    var words := new bv16[o.len](_ => 0);
    assert words[..] == Zeros(o.len);
    NoKeys(o, args);
    for i := 0 to |args|
      invariant words.Length == o.len && fresh(words)
      invariant NoNulls(args[..i]) && ValidKeys(o, Keys(args[..i]))
      invariant words[..] == ScanSign(o, Keys(args[..i]))
    {
      if args[i].value.Null? {
        return Nothing;
      }
      ghost var w := words[..];
      var k, h := args[i].attno, args[i].value.h;
      SignValue(gen, words, h, k, o.bits[k], o.stray(k, h));
      SignedIsMask(w, k, h, o.bits[k], o.stray(k, h));
      ScanSignStep(o, args, i);
    }
    assert args[..|args|] == args;
    return Search(words[..]);
  }

  lemma NoKeys(o: Options, args: seq<KeyArg>)
    requires ValidOptions(o)
    ensures ValidKeys(o, Keys(args[..0])) && ScanSign(o, Keys(args[..0])) == Zeros(o.len)
  {
  }
}
