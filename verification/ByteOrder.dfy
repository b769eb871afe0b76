/** The order of byte strings: first difference, then length. */
module ByteOrder {
  type Byte = b: int | 0 <= b < 256

  type Bytes = seq<Byte>

  function Compare(a: Bytes, b: Bytes): int {
    if a == [] then if b == [] then 0 else -1
    else if b == [] then 1
    else if a[0] < b[0] then -1
    else if a[0] > b[0] then 1
    else Compare(a[1..], b[1..])
  }

  predicate Le(a: Bytes, b: Bytes) {
    Compare(a, b) <= 0
  }

  predicate Prefix(a: Bytes, b: Bytes) {
    |a| <= |b| && b[..|a|] == a
  }

  /** How many leading bytes two strings share. */
  function CommonLength(a: Bytes, b: Bytes): (n: nat)
    ensures n <= |a| && n <= |b|
  {
    if a == [] || b == [] || a[0] != b[0] then 0 else 1 + CommonLength(a[1..], b[1..])
  }

  lemma {:induction false} CompareOrder(a: Bytes, b: Bytes, c: Bytes)
    ensures Compare(a, b) == 0 <==> a == b
    ensures Compare(b, a) == -Compare(a, b)
    ensures Le(a, b) && Le(b, c) ==> Le(a, c)
  {
    if a != [] && b != [] {
      assert a == [a[0]] + a[1..] && b == [b[0]] + b[1..];
      CompareOrder(a[1..], b[1..], if c == [] then [] else c[1..]);
    }
  }

  lemma LeTrans(a: Bytes, b: Bytes, c: Bytes)
    requires Le(a, b) && Le(b, c)
    ensures Le(a, c)
  {
    CompareOrder(a, b, c);
  }

  lemma LeTotal(a: Bytes, b: Bytes)
    ensures Le(a, b) || Le(b, a)
    ensures Le(a, b) && Le(b, a) ==> a == b
  {
    CompareOrder(a, b, a);
  }

  lemma PrefixTail(a: Bytes, b: Bytes)
    requires a != [] && b != []
    ensures Prefix(a, b) <==> a[0] == b[0] && Prefix(a[1..], b[1..])
  {
    if |a| <= |b| {
      assert b[..|a|] == [b[0]] + b[1..][..|a| - 1];
      assert a == [a[0]] + a[1..];
    }
  }

  lemma {:induction false} PrefixLe(a: Bytes, b: Bytes)
    requires Prefix(a, b)
    ensures Le(a, b)
  {
    if a != [] {
      PrefixTail(a, b);
      PrefixLe(a[1..], b[1..]);
    }
  }

  /** What lies between a string and one it is a prefix of starts with it too. */
  lemma {:induction false} Between(u: Bytes, x: Bytes, v: Bytes)
    requires Le(u, x) && Le(x, v) && Prefix(u, v)
    ensures Prefix(u, x)
  {
    if u != [] {
      PrefixTail(u, v);
      if x != [] {
        PrefixTail(u, x);
        Between(u[1..], x[1..], v[1..]);
      }
    }
  }

  /** Cutting both strings to one length keeps their order. */
  lemma {:induction false} CutLe(a: Bytes, b: Bytes, k: nat)
    requires Le(a, b)
    ensures Le(Cut(a, k), Cut(b, k))
  {
    if k > 0 && a != [] && b != [] {
      CutTail(a, k);
      CutTail(b, k);
      if a[0] == b[0] { CutLe(a[1..], b[1..], k - 1); }
    }
  }

  function Cut(a: Bytes, k: nat): Bytes {
    if |a| <= k then a else a[..k]
  }

  lemma CutTail(a: Bytes, k: nat)
    requires a != [] && k > 0
    ensures Cut(a, k) != [] && Cut(a, k)[0] == a[0] && Cut(a, k)[1..] == Cut(a[1..], k - 1)
  {
  }

  /** The shared part is a prefix of both, and no longer prefix is. */
  lemma {:induction false} CommonIsPrefix(a: Bytes, b: Bytes, k: nat)
    requires k <= |a|
    ensures Prefix(a[..k], b) <==> k <= CommonLength(a, b)
  {
    if k > 0 {
      if b != [] {
        PrefixTail(a[..k], b);
        assert a[..k][1..] == a[1..][..k - 1];
        if a[0] == b[0] { CommonIsPrefix(a[1..], b[1..], k - 1); }
      }
    }
  }

  lemma {:induction false} CommonCut(a: Bytes, b: Bytes, k: nat)
    requires CommonLength(a, b) <= k
    ensures CommonLength(Cut(a, k), Cut(b, k)) == CommonLength(a, b)
  {
    if a != [] && b != [] && a[0] == b[0] {
      CutTail(a, k);
      CutTail(b, k);
      CommonCut(a[1..], b[1..], k - 1);
    }
  }

  lemma {:induction false} CommonSym(a: Bytes, b: Bytes)
    ensures CommonLength(a, b) == CommonLength(b, a)
  {
    if a != [] && b != [] { CommonSym(a[1..], b[1..]); }
  }

  lemma PrefixTrans(a: Bytes, b: Bytes, c: Bytes)
    requires Prefix(a, b) && Prefix(b, c)
    ensures Prefix(a, c)
  {
    assert c[..|a|] == c[..|b|][..|a|];
  }

  lemma CutPrefix(a: Bytes, k: nat)
    ensures Prefix(Cut(a, k), a)
  {
  }

  /** A string with a larger byte where they first differ is larger. */
  lemma {:induction false} LargerByte(a: Bytes, b: Bytes, i: nat)
    requires i < |a| && i < |b| && a[..i] == b[..i] && a[i] < b[i]
    ensures Compare(a, b) == -1 && !Prefix(a, b)
  {
    if i > 0 {
      assert a[0] == a[..i][0] == b[..i][0] == b[0];
      assert a[1..][..i - 1] == a[..i][1..] == b[..i][1..] == b[1..][..i - 1];
      LargerByte(a[1..], b[1..], i - 1);
      PrefixTail(a, b);
    }
  }

  /** What is not below a string and starts with a part of it starts with more of it
      as long as that is largest bytes. */
  lemma {:induction false} LargestBytes(a: Bytes, b: Bytes, i: nat, m: nat)
    requires i <= m <= |a| && Prefix(a[..i], b) && Le(a, b) && forall k :: i <= k < m ==> a[k] == 255
    ensures Prefix(a[..m], b)
    decreases m
  {
    if i > 0 {
      PrefixTail(a[..i], b);
      PrefixTail(a[..m], b);
      assert a[..i][1..] == a[1..][..i - 1] && a[..m][1..] == a[1..][..m - 1];
      LargestBytes(a[1..], b[1..], i - 1, m - 1);
    } else if m > 0 {
      assert a[0] == 255 && b != [] && b[0] == 255;
      PrefixTail(a[..m], b);
      assert a[..m][1..] == a[1..][..m - 1];
      LargestBytes(a[1..], b[1..], 0, m - 1);
    }
  }
}
