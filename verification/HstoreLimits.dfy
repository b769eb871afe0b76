/** Stored hstores that cannot be printed, or printed but not read back. */
module HstoreLimits {
  import opened HstoreOrder
  import opened HstorePack
  import opened HstoreIo
  import T = HstoreText

  /** The last k digits of i in base 128, each as a byte that is not NUL. */
  function Digits(i: nat, k: nat): (s: string)
    ensures |s| == k && T.NoNul(s)
  {
    if k == 0 then [] else Digits(i / 128, k - 1) + [(i % 128 + 1) as char]
  }

  function Room(k: nat): nat {
    if k == 0 then 1 else 128 * Room(k - 1)
  }

  lemma {:induction false} MemcmpSnoc(a: string, b: string, c: char, d: char)
    requires |a| == |b|
    ensures Memcmp(a + [c], b + [d]) ==
      if Memcmp(a, b) != 0 then Memcmp(a, b) else if c < d then -1 else if c > d then 1 else 0
  {
    if a != [] {
      assert (a + [c])[1..] == a[1..] + [c] && (b + [d])[1..] == b[1..] + [d];
      MemcmpSnoc(a[1..], b[1..], c, d);
    }
  }

  lemma {:induction false} DigitsRise(i: nat, j: nat, k: nat)
    requires i < j < Room(k)
    ensures Memcmp(Digits(i, k), Digits(j, k)) < 0
  {
    var c, d := (i % 128 + 1) as char, (j % 128 + 1) as char;
    MemcmpSnoc(Digits(i / 128, k - 1), Digits(j / 128, k - 1), c, d);
    if i / 128 < j / 128 { DigitsRise(i / 128, j / 128, k - 1); }
  }

  /** Null values under n different keys of four bytes. */
  function NullPairs(n: nat): seq<Pair> {
    seq(n, i requires 0 <= i < n => Pair(Digits(i, 4), Null))
  }

  lemma {:induction false} NullSizes(n: nat, k: nat)
    requires k <= n
    ensures Total(NullPairs(n), k) == 4 * k && Estimate(NullPairs(n), k) == 18 * k
  {
    if k > 0 { NullSizes(n, k - 1); }
  }

  /** More than 16,777,216 pairs of this kind, up to twice as many, are printed and
      not read back. */
  lemma TooManyToRead(n: nat)
    requires T.MAXPAIRS < n <= 2 * T.MAXPAIRS
    ensures var ps := NullPairs(n);
      Sorted(ps) && Small(ps) && NoNuls(ps) && Estimate(ps, |ps|) <= MAXALLOC && |ps| > T.MAXPAIRS
  {
    var ps := NullPairs(n);
    NullSizes(n, n);
    assert Room(4) == 0x1000_0000;
    forall i, j | 0 <= i < j < n ensures Less(ps[i].key, ps[j].key) {
      DigitsRise(i, j, 4);
    }
  }

  /** One value of half the largest size or more is stored and not printed. */
  lemma TooLongToPrint(n: nat)
    requires T.MAXWORD <= n <= MAXALLOC - 16
    ensures var ps := [Pair([], Text(seq(n, i => 'a')))];
      Sorted(ps) && Small(ps) && NoNuls(ps) && Estimate(ps, |ps|) > MAXALLOC
  {
    var ps := [Pair([], Text(seq(n, i => 'a')))];
    assert Total(ps, 0) == 0 && Estimate(ps, 0) == 0;
    assert Total(ps, 1) == n && Estimate(ps, 1) == 8 + 2 * n;
  }
}
