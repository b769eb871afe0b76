/** Pairs of an hstore, the order their keys are kept in, and the finite map a
    sorted list of pairs stands for. */
module HstoreOrder {
  datatype Value = Null | Text(text: string)

  datatype Pair = Pair(key: string, val: Value)

  /** The sign of the first difference between strings of one length, bytes
      taken as unsigned. */
  function Memcmp(a: string, b: string): (r: int)
    requires |a| == |b|
    ensures r == 0 <==> a == b
    ensures -1 <= r <= 1
  {
    if a == [] then 0
    else if a[0] < b[0] then -1
    else if a[0] > b[0] then 1
    else
      assert a == [a[0]] + a[1..] && b == [b[0]] + b[1..];
      Memcmp(a[1..], b[1..])
  }

  /** Keys compare by length first. */
  function Compare(a: string, b: string): (r: int)
    ensures r == 0 <==> a == b
    ensures -1 <= r <= 1
  {
    if |a| == |b| then Memcmp(a, b) else if |a| > |b| then 1 else -1
  }

  predicate Less(a: string, b: string) {
    Compare(a, b) < 0
  }

  lemma {:induction false} MemcmpOrder(a: string, b: string, c: string)
    requires |a| == |b| == |c|
    ensures Memcmp(b, a) == -Memcmp(a, b)
    ensures Memcmp(a, b) < 0 && Memcmp(b, c) < 0 ==> Memcmp(a, c) < 0
  {
    if a != [] { MemcmpOrder(a[1..], b[1..], c[1..]); }
  }

  /** A total order. */
  lemma LessOrder(a: string, b: string, c: string)
    ensures Compare(b, a) == -Compare(a, b)
    ensures Less(a, b) && Less(b, c) ==> Less(a, c)
  {
    if |a| == |b| { MemcmpOrder(a, b, if |c| == |a| then c else a); }
  }

  predicate Sorted(ps: seq<Pair>) {
    forall i, j :: 0 <= i < j < |ps| ==> Less(ps[i].key, ps[j].key)
  }

  /** All keys come before k. */
  predicate AllBelow(ps: seq<Pair>, k: string) {
    forall i :: 0 <= i < |ps| ==> Less(ps[i].key, k)
  }

  lemma SortedSnoc(ps: seq<Pair>, p: Pair)
    requires Sorted(ps) && AllBelow(ps, p.key)
    ensures Sorted(ps + [p])
  {
  }

  type Store = map<string, Value>

  /** The map of the first n pairs; later pairs win. */
  function MapOf(ps: seq<Pair>, n: nat): Store
    requires n <= |ps|
  {
    if n == 0 then map[] else MapOf(ps, n - 1)[ps[n - 1].key := ps[n - 1].val]
  }

  function AsMap(ps: seq<Pair>): Store {
    MapOf(ps, |ps|)
  }

  lemma {:induction false} MapOfIn(ps: seq<Pair>, n: nat, k: string)
    requires n <= |ps| && Sorted(ps)
    ensures k in MapOf(ps, n) <==> exists i :: 0 <= i < n && ps[i].key == k
    ensures forall i :: 0 <= i < n && ps[i].key == k ==> k in MapOf(ps, n) && MapOf(ps, n)[k] == ps[i].val
  {
    if n > 0 {
      MapOfIn(ps, n - 1, k);
      LessOrder(ps[n - 1].key, ps[n - 1].key, ps[n - 1].key);
      forall i | 0 <= i < n - 1 ensures ps[i].key != ps[n - 1].key {
        assert Less(ps[i].key, ps[n - 1].key);
      }
    }
  }

  lemma {:induction false} MapOfSnoc(ps: seq<Pair>, p: Pair, n: nat)
    requires n <= |ps|
    ensures MapOf(ps + [p], n) == MapOf(ps, n)
  {
    if n > 0 { MapOfSnoc(ps, p, n - 1); }
  }

  lemma AsMapSnoc(ps: seq<Pair>, p: Pair)
    ensures AsMap(ps + [p]) == AsMap(ps)[p.key := p.val]
  {
    MapOfSnoc(ps, p, |ps|);
  }

  lemma FirstIsThere(ps: seq<Pair>)
    requires Sorted(ps)
    ensures ps != [] ==> ps[0].key in AsMap(ps)
  {
    if ps != [] { MapOfIn(ps, |ps|, ps[0].key); }
  }

  /** Two sorted lists with one map are one list. */
  lemma {:induction false} SameMapSameList(ps: seq<Pair>, qs: seq<Pair>)
    requires Sorted(ps) && Sorted(qs) && AsMap(ps) == AsMap(qs)
    ensures ps == qs
    decreases |ps|
  {
    FirstIsThere(ps);
    FirstIsThere(qs);
    if ps != [] && qs != [] {
      SameLast(ps, qs);
      var ps', qs' := ps[..|ps| - 1], qs[..|qs| - 1];
      LastOff(ps);
      LastOff(qs);
      hide Sorted, AsMap;
      SameMapSameList(ps', qs');
      assert ps == ps' + [ps[|ps| - 1]] && qs == qs' + [qs[|qs| - 1]];
    }
  }

  lemma LastOff(ps: seq<Pair>)
    requires Sorted(ps) && ps != []
    ensures Sorted(ps[..|ps| - 1]) && AsMap(ps[..|ps| - 1]) == AsMap(ps) - {ps[|ps| - 1].key}
  {
    var ps', p := ps[..|ps| - 1], ps[|ps| - 1];
    assert ps == ps' + [p];
    hide MapOf;
    AsMapSnoc(ps', p);
    NotYet(ps', p);
  }

  lemma SameLast(ps: seq<Pair>, qs: seq<Pair>)
    requires Sorted(ps) && Sorted(qs) && AsMap(ps) == AsMap(qs) && ps != [] && qs != []
    ensures qs[|qs| - 1] == ps[|ps| - 1]
  {
    hide Sorted, AsMap;
    LastIsGreatest(ps, qs);
    LastIsGreatest(qs, ps);
    LessOrder(ps[|ps| - 1].key, qs[|qs| - 1].key, ps[|ps| - 1].key);
  }

  lemma NotYet(ps: seq<Pair>, p: Pair)
    requires Sorted(ps + [p])
    ensures p.key !in AsMap(ps)
  {
    var all := ps + [p];
    forall i, j | 0 <= i < j < |ps| ensures Less(ps[i].key, ps[j].key) {
      assert Less(all[i].key, all[j].key);
    }
    MapOfIn(ps, |ps|, p.key);
    LessOrder(p.key, p.key, p.key);
    forall i | 0 <= i < |ps| ensures ps[i].key != p.key {
      assert Less(all[i].key, all[|ps|].key);
    }
  }

  /** The last pair of a list is among the other's pairs, so not above its last. */
  lemma LastIsGreatest(ps: seq<Pair>, qs: seq<Pair>)
    requires Sorted(ps) && Sorted(qs) && AsMap(ps) == AsMap(qs) && ps != [] && qs != []
    ensures !Less(qs[|qs| - 1].key, ps[|ps| - 1].key)
    ensures qs[|qs| - 1].key == ps[|ps| - 1].key ==> qs[|qs| - 1] == ps[|ps| - 1]
  {
    var p, q := ps[|ps| - 1], qs[|qs| - 1];
    MapOfIn(ps, |ps|, p.key);
    MapOfIn(qs, |qs|, p.key);
    MapOfIn(qs, |qs|, q.key);
    assert p.key in AsMap(qs);
    var i :| 0 <= i < |qs| && qs[i].key == p.key;
    if i < |qs| - 1 { assert Less(qs[i].key, q.key); LessOrder(p.key, q.key, p.key); }
  }
}
