/** Buffers that are doubled while one allocation can have the double. */
module Buffers {
  /** The largest allocation. */
  const MAXALLOC: nat := 0x3FFF_FFFF

  /** The largest size a buffer of bytes is doubled to. */
  const MAXBUF: nat := 0x2000_0000

  /** Sizes a buffer of 16 is doubled to. */
  predicate IsDoubled(n: nat) {
    n == 16 || (n > 16 && n % 2 == 0 && IsDoubled(n / 2))
  }

  function Doubled(k: nat): (n: nat)
    ensures n >= 16
  {
    if k == 0 then 16 else 2 * Doubled(k - 1)
  }

  lemma {:induction false} DoublesAgain(n: nat, k: nat)
    requires IsDoubled(n) && n < Doubled(k)
    ensures 2 * n <= Doubled(k)
  {
    if n > 16 { DoublesAgain(n / 2, k - 1); }
  }

  lemma DoubledOnce(n: nat)
    requires IsDoubled(n)
    ensures IsDoubled(2 * n) && 16 <= n
  {
  }

  lemma DoubledValues()
    ensures Doubled(25) == MAXBUF && Doubled(20) == 0x100_0000
  {
    assert Doubled(10) == 0x4000;
    assert Doubled(20) == 0x100_0000;
  }

  /** A buffer is doubled exactly up to MAXBUF bytes. */
  lemma ByteRoom(n: nat)
    requires IsDoubled(n) && n <= MAXBUF
    ensures n < MAXBUF ==> 2 * n <= MAXBUF && IsDoubled(2 * n)
    ensures 2 * n <= MAXALLOC <==> n < MAXBUF
  {
    hide Doubled, IsDoubled;
    DoubledValues();
    DoubledOnce(n);
    if n < MAXBUF { DoublesAgain(n, 25); }
  }

  /** An array of elements of 40 bytes is doubled exactly up to 16,777,216. */
  lemma WideRoom(n: nat)
    requires IsDoubled(n) && n <= 0x100_0000
    ensures n < 0x100_0000 ==> 2 * n <= 0x100_0000 && IsDoubled(2 * n)
    ensures 40 * (n * 2) <= MAXALLOC <==> n < 0x100_0000
  {
    hide Doubled, IsDoubled;
    DoubledValues();
    DoubledOnce(n);
    if n < 0x100_0000 { DoublesAgain(n, 20); }
  }
}
