/** Reading and writing the text form in place, and the round trip. */
module HstoreIo {
  import opened HstoreOrder
  import opened HstorePack
  import opened HstoreMerge
  import opened HstoreKeys
  import T = HstoreText
  import B = Buffers

  datatype Outcome = Failed | Full | Ended | Read

  class HSParser {
    const begin: string
    var ptr: int
    var word: array<char>
    var cur: nat

    constructor (text: string)
      ensures begin == text && ptr == 0 && fresh(word) && cur == 0
    {
      begin, ptr, cur := text, 0, 0;
      word := new char[32](_ => ' ');
    }

    /** The buffer's size, which has room for the word and a character more. */
    predicate Sized()
      reads this
    {
      B.IsDoubled(word.Length) && word.Length <= T.MAXWORD && cur < word.Length
    }

    /** Appends to the word, doubling its buffer before it would fill, unless that
        takes more than one allocation can have. */
    method AddChar(c: char) returns (ok: bool)
      requires Sized()
      modifies this, word
      ensures ptr == old(ptr) && (word == old(word) || fresh(word))
      ensures ok <==> old(cur) + 1 < T.MAXWORD
      ensures !ok ==> word == old(word) && cur == old(cur)
      ensures ok ==> Sized() && cur == old(cur) + 1 && word[..cur] == old(word[..cur]) + [c]
    {
      B.ByteRoom(word.Length);
      if cur + 1 >= word.Length {
        if word.Length * 2 > MAXALLOC {
          return false;
        }
        var bigger := new char[word.Length * 2](i requires 0 <= i < word.Length * 2 reads this, word =>
          if i < word.Length then word[i] else ' ');
        assert bigger[..cur] == word[..cur];
        word := bigger;
      }
      word[cur] := c;
      cur := cur + 1;
      return true;
    }

    /** Reads a word with the reader's five states. */
    method GetVal(ignoreeq: bool) returns (r: Outcome, escaped: bool)
      requires 0 <= ptr
      modifies this
      ensures fresh(word) && cur <= word.Length
      ensures var w := T.ReadWord(begin, old(ptr), ignoreeq);
        && (r.Failed? <==> w.BadWord?) && (r.Full? <==> w.NoRoom?) && (r.Ended? <==> w.Eos?) && (r.Read? <==> w.Word?)
        && (w.Word? ==> word[..cur] == w.word && escaped == w.escaped && ptr == w.ptr)
    {
      var st := T.WaitVal;
      word := new char[32](_ => ' ');
      cur, escaped := 0, false;
      assert word[..cur] == [];
      ghost var goal := T.ReadWord(begin, ptr, ignoreeq);
      while true
        invariant 0 <= ptr && fresh(word) && Sized()
        invariant T.GetVal(begin, ptr, st, word[..cur], escaped, ignoreeq) == goal
        decreases if ptr < |begin| then |begin| - ptr else 0
      {
        var c := T.At(begin, ptr);
        var next, add := st, false;
        match st {
          case WaitVal =>
            if c == '"' { escaped, next := true, T.InEscVal; }
            else if c == '\0' { return Ended, escaped; }
            else if c == '=' && !ignoreeq { return Failed, escaped; }
            else if c == '\\' { next := T.WaitEscIn; }
            else if !T.IsSpace(c) { add, next := true, T.InVal; }
          case InVal =>
            if c == '\\' { next := T.WaitEscIn; }
            else if (c == '=' && !ignoreeq) || (c == ',' && ignoreeq) { ptr := ptr - 1; return Read, escaped; }
            else if T.IsSpace(c) { return Read, escaped; }
            else if c == '\0' { ptr := ptr - 1; return Read, escaped; }
            else { add := true; }
          case InEscVal =>
            if c == '\\' { next := T.WaitEscEscIn; }
            else if c == '"' { return Read, escaped; }
            else if c == '\0' { return Failed, escaped; }
            else { add := true; }
          case WaitEscIn =>
            if c == '\0' { return Failed, escaped; }
            add, next := true, T.InVal;
          case WaitEscEscIn =>
            if c == '\0' { return Failed, escaped; }
            add, next := true, T.InEscVal;
        }
        st := next;
        if add {
          var ok := AddChar(c);
          if !ok { return Full, escaped; }
        }
        ptr := ptr + 1;
      }
    }

    /** Makes room for one more pair than n, if one allocation can have it. */
    static method PairRoom(plen: nat, n: nat) returns (ok: bool, plen': nat)
      requires B.IsDoubled(plen) && plen <= T.MAXPAIRS && n <= plen
      ensures ok <==> n < T.MAXPAIRS
      ensures B.IsDoubled(plen') && plen <= plen' <= T.MAXPAIRS && (ok ==> n < plen')
    {
      B.WideRoom(plen);
      hide B.IsDoubled;
      plen' := plen;
      if n >= plen {
        if 40 * (plen * 2) > MAXALLOC { return false, plen; }
        plen' := plen * 2;
      }
      ok := true;
    }

    static lemma FirstRoom()
      ensures B.IsDoubled(16)
    {
    }

    /** Reads the pairs with the five states of the outer reader, doubling the room
        for pairs while one allocation can have it. */
    method ParseHstore() returns (r: T.Parsed)
      modifies this
      ensures r == T.ParseText(begin)
    {
      var st, key, pairs, escaped := T.WKey, [], [], false;
      var plen: nat := 16;
      ptr := 0;
      hide T.ReadWord, B.IsDoubled;
      FirstRoom();
      while true
        invariant 0 <= ptr && T.Parse(begin, ptr, st, key, pairs) == T.ParseText(begin)
        invariant B.IsDoubled(plen) && plen <= T.MAXPAIRS && |pairs| <= plen
        invariant st != T.WKey ==> st == T.WDel || |pairs| < plen
        decreases if ptr < |begin| then |begin| - ptr else 0
      {
        var c := T.At(begin, ptr);
        ghost var p := ptr;
        match st {
          case WKey =>
            var ok: Outcome;
            ok, escaped := GetVal(false);
            if ok.Ended? { return T.Pairs(pairs); }
            if ok.Failed? { return T.SyntaxError; }
            if ok.Full? { return T.OutOfMemory; }
            T.ReadWordEnds(begin, p, false);
            var room: bool;
            room, plen := PairRoom(plen, |pairs|);
            if !room { return T.OutOfMemory; }
            if cur > T.MAXLEN { return T.SyntaxError; }
            key, st := word[..cur], T.WEq;
          case WEq =>
            if c == '=' { st := T.WGt; }
            else if c == '\0' || !T.IsSpace(c) { return T.SyntaxError; }
          case WGt =>
            if c != '>' { return T.SyntaxError; }
            st := T.WVal;
          case WVal =>
            var ok: Outcome;
            ok, escaped := GetVal(true);
            if ok.Full? { return T.OutOfMemory; }
            if !ok.Read? { return T.SyntaxError; }
            T.ReadWordEnds(begin, p, true);
            if cur > T.MAXLEN { return T.SyntaxError; }
            pairs := pairs + [Pair(key, T.ValueOf(word[..cur], escaped))];
            key, st := [], T.WDel;
          case WDel =>
            if c == ',' { key, st := [], T.WKey; }
            else if c == '\0' { return T.Pairs(pairs); }
            else if !T.IsSpace(c) { return T.SyntaxError; }
        }
        ptr := ptr + 1;
      }
    }
  }

  /** ps has each key of the pairs once, with one of the values given for it. */
  predicate Chosen(ps: seq<Pair>, pairs: seq<Pair>) {
    Sorted(ps) && KeysOf(ps) == KeysOf(pairs) && forall p :: p in ps ==> p in pairs
  }

  datatype InResult = SyntaxError | NoMemory | Stored(hs: HStore)

  /** The pairs are packed if they fit in one allocation, and refused if not. */
  predicate PackedIfSmall(r: InResult, ps: seq<Pair>) {
    if Small(ps) then r.Stored? && Packed(r.hs, ps) else r == NoMemory
  }

  /** Reads a text into packed form. */
  method HstoreIn(text: string) returns (r: InResult)
    ensures r.SyntaxError? <==> T.ParseText(text).SyntaxError?
    ensures T.ParseText(text).OutOfMemory? ==> r == NoMemory
    ensures T.ParseText(text).Pairs? ==> exists ps :: Chosen(ps, T.ParseText(text).pairs) && PackedIfSmall(r, ps)
    ensures T.ParseText(text).Pairs? && Sorted(T.ParseText(text).pairs) ==> PackedIfSmall(r, T.ParseText(text).pairs)
  {
    var state := new HSParser(text);
    var parsed := state.ParseHstore();
    if parsed.SyntaxError? {
      return SyntaxError;
    }
    if parsed.OutOfMemory? {
      return NoMemory;
    }
    var a := new Pair[|parsed.pairs|](i requires 0 <= i < |parsed.pairs| => parsed.pairs[i]);
    assert a[..a.Length] == parsed.pairs;
    var n, buflen := UniquePairs(a, a.Length);
    hide Sorted, Packed, Small;
    var packed := FromPairs(a[..n], buflen);
    r := if packed.Ok? then Stored(packed.hs) else NoMemory;
    assert Chosen(a[..n], parsed.pairs) && PackedIfSmall(r, a[..n]);
  }

  // ----- printing ----------------------------------------------------------

  /** The printer's estimate: room for the quotes, the arrow, the separator and
      an escape before every byte. */
  function Estimate(ps: seq<Pair>, n: nat): nat
    requires n <= |ps|
  {
    if n == 0 then 0
    else
      var p := ps[n - 1];
      Estimate(ps, n - 1) + 6 + 2 * |p.key| + 2 + if p.val.Null? then 2 else 2 * |p.val.text|
  }

  lemma PairTextFits(p: Pair)
    ensures |T.PairText(p)| <= 2 * |p.key| + if p.val.Null? then 8 else 6 + 2 * |p.val.text|
  {
    T.EscapeLength(p.key, |p.key|);
    if p.val.Text? { T.EscapeLength(p.val.text, |p.val.text|); }
  }

  /** The text and its terminator stay within the estimate. */
  lemma {:induction false} EstimateIsEnough(ps: seq<Pair>, n: nat)
    requires n <= |ps|
    ensures |T.PrintTo(ps, n)| + (if n == |ps| > 0 then 2 else 0) <= Estimate(ps, n)
  {
    hide T.PairText;
    if n > 0 {
      EstimateIsEnough(ps, n - 1);
      PairTextFits(ps[n - 1]);
    }
  }

  /** The estimate is an int: it does not wrap for any stored value. */
  lemma EstimateFits(ps: seq<Pair>)
    requires Small(ps)
    ensures Estimate(ps, |ps|) < 0x8000_0000
  {
    EstimateTotal(ps, |ps|);
  }

  lemma {:induction false} EstimateTotal(ps: seq<Pair>, n: nat)
    requires n <= |ps|
    ensures 8 * n + 2 * Total(ps, n) <= Estimate(ps, n) <= 10 * n + 2 * Total(ps, n)
  {
    if n > 0 { EstimateTotal(ps, n - 1); }
  }

  lemma {:induction false} EstimateUp(ps: seq<Pair>, i: nat, n: nat)
    requires i <= n <= |ps|
    ensures Estimate(ps, i) <= Estimate(ps, n)
  {
    if i < n { EstimateUp(ps, i, n - 1); }
  }

  class TextBuffer {
    const buf: array<char>
    var ptr: nat

    constructor (len: nat)
      ensures fresh(buf) && buf.Length == len && ptr == 0
    {
      buf := new char[len](_ => ' ');
      ptr := 0;
    }

    method Put(c: char)
      requires ptr < buf.Length
      modifies this, buf
      ensures ptr == old(ptr) + 1 <= buf.Length && buf[..ptr] == old(buf[..ptr]) + [c]
    {
      buf[ptr] := c;
      ptr := ptr + 1;
    }

    /** Copies a string, escaping quotes and backslashes. */
    method Cpw(src: string)
      requires ptr + 2 * |src| <= buf.Length
      modifies this, buf
      ensures ptr <= old(ptr) + 2 * |src| && ptr <= buf.Length
      ensures buf[..ptr] == old(buf[..ptr]) + T.Escape(src, |src|)
    {
      ghost var start := buf[..ptr];
      assert start + T.Escape(src, 0) == start;
      for i := 0 to |src|
        invariant ptr <= old(ptr) + 2 * i
        invariant buf[..ptr] == start + T.Escape(src, i)
      {
        ghost var so := T.Escape(src, i);
        var esc := T.Special(src[i]);
        if esc {
          Put('\\');
        }
        Put(src[i]);
        EscapeStep(start, src, i);
      }
    }

    method Quote(src: string)
      requires ptr + 2 + 2 * |src| <= buf.Length
      modifies this, buf
      ensures ptr <= old(ptr) + 2 + 2 * |src| && ptr <= buf.Length
      ensures buf[..ptr] == old(buf[..ptr]) + T.Quoted(src)
    {
      ghost var start := buf[..ptr];
      Put('"');
      Cpw(src);
      Put('"');
      Regroup(start, ['"'], T.Escape(src, |src|), ['"']);
    }

    method PutAll(t: string)
      requires ptr + |t| <= buf.Length
      modifies this, buf
      ensures ptr == old(ptr) + |t| && ptr <= buf.Length
      ensures buf[..ptr] == old(buf[..ptr]) + t
    {
      ghost var start := buf[..ptr];
      for i := 0 to |t|
        invariant ptr == old(ptr) + i && buf[..ptr] == start + t[..i]
      {
        Put(t[i]);
        assert start + t[..i] + [t[i]] == start + t[..i + 1];
      }
      assert t[..|t|] == t;
    }

    /** Prints one pair. */
    method PutPair(p: Pair)
      requires ptr + 2 * |p.key| + (if p.val.Null? then 8 else 6 + 2 * |p.val.text|) <= buf.Length
      modifies this, buf
      ensures ptr <= buf.Length && buf[..ptr] == old(buf[..ptr]) + T.PairText(p)
    {
      hide T.Quoted;
      ghost var start, k := buf[..ptr], T.Quoted(p.key);
      Quote(p.key);
      PutAll(['=', '>']);
      if p.val.Null? {
        PutAll(['N', 'U', 'L', 'L']);
        Regroup(start, k, ['=', '>'], ['N', 'U', 'L', 'L']);
      } else {
        Quote(p.val.text);
        Regroup(start, k, ['=', '>'], T.Quoted(p.val.text));
      }
    }
  }

  lemma EscapeStep(start: string, src: string, i: nat)
    requires i < |src|
    ensures start + T.Escape(src, i + 1) ==
      if T.Special(src[i]) then start + T.Escape(src, i) + ['\\'] + [src[i]] else start + T.Escape(src, i) + [src[i]]
  {
  }

  lemma Regroup(a: string, b: string, c: string, d: string)
    ensures a + b + c + d == a + (b + c + d)
  {
  }

  datatype OutResult = NoBuffer | Printed(text: string)

  /** Prints a packed hstore, unless the estimate is more than one allocation. */
  method HstoreOut(hs: HStore, ghost ps: seq<Pair>) returns (r: OutResult)
    requires Packed(hs, ps) && Small(ps)
    ensures r == if Estimate(ps, |ps|) <= MAXALLOC then Printed(T.Print(ps)) else NoBuffer
  {
    assert |ps| == hs.count;
    if hs.count == 0 {
      return Printed([]);
    }
    var buflen := BufLen(hs, ps);
    if buflen > MAXALLOC {
      return NoBuffer;
    }
    var out := new TextBuffer(buflen);
    hide Packed, Small, T.PrintTo, Estimate;
    assert T.PrintTo(ps, 0) == [] by { T.PrintNone(ps); }
    for i := 0 to hs.count
      invariant fresh(out) && fresh(out.buf) && out.buf.Length == Estimate(ps, |ps|)
      invariant out.ptr <= out.buf.Length && out.buf[..out.ptr] == T.PrintTo(ps, i)
    {
      var key := ReadKey(hs, i, ps);
      var val := ReadVal(hs, i, ps);
      assert ps[i] == Pair(key, val);
      PutNext(out, Pair(key, val), i + 1 != hs.count, ps, i);
    }
    EstimateIsEnough(ps, |ps|);
    out.buf[out.ptr] := '\0';
    r := Printed(out.buf[..out.ptr]);
  }

  /** Prints pair i and what separates it from the next. */
  method PutNext(out: TextBuffer, p: Pair, more: bool, ghost ps: seq<Pair>, ghost i: nat)
    requires i < |ps| && p == ps[i] && (more <==> i + 1 < |ps|) && out.buf.Length == Estimate(ps, |ps|)
    requires out.ptr <= out.buf.Length && out.buf[..out.ptr] == T.PrintTo(ps, i)
    modifies out, out.buf
    ensures out.ptr <= out.buf.Length && out.buf[..out.ptr] == T.PrintTo(ps, i + 1)
  {
    hide T.PairText, T.PrintTo, Estimate;
    RoomForPair(ps, i);
    T.PrintStep(ps, i);
    ghost var start := out.buf[..out.ptr];
    out.PutPair(p);
    if more {
      out.PutAll([',', ' ']);
    }
    assert start + T.PairText(p) + T.Tail(ps, i + 1) == start + (T.PairText(p) + T.Tail(ps, i + 1));
  }

  /** The size of the buffer to print into. */
  method BufLen(hs: HStore, ghost ps: seq<Pair>) returns (buflen: nat)
    requires Packed(hs, ps) && Small(ps)
    ensures buflen == Estimate(ps, |ps|) < 0x8000_0000
  {
    assert |ps| == hs.count;
    EstimateFits(ps);
    hide Packed, Small;
    buflen := 0;
    for i := 0 to hs.count
      invariant buflen == Estimate(ps, i)
    {
      var key := ReadKey(hs, i, ps);
      var val := ReadVal(hs, i, ps);
      buflen := buflen + 6 + 2 * |key| + 2 + if val.Null? then 2 else 2 * |val.text|;
    }
  }

  lemma RoomForPair(ps: seq<Pair>, i: nat)
    requires i < |ps|
    ensures var p := ps[i];
      |T.PrintTo(ps, i)| + 2 * |p.key| + (if p.val.Null? then 8 else 6 + 2 * |p.val.text|) + 2 <= Estimate(ps, |ps|)
    ensures |T.PairText(ps[i])| <= 2 * |ps[i].key| + if ps[i].val.Null? then 8 else 6 + 2 * |ps[i].val.text|
  {
    EstimateIsEnough(ps, i);
    EstimateUp(ps, i + 1, |ps|);
    PairTextFits(ps[i]);
  }

  // ----- the round trip ----------------------------------------------------

  predicate NoNuls(ps: seq<Pair>) {
    forall i :: 0 <= i < |ps| ==> T.NoNul(ps[i].key) && (ps[i].val.Text? ==> T.NoNul(ps[i].val.text))
  }

  /** What can be printed has no word too long to read. */
  lemma EstimateShort(ps: seq<Pair>, i: nat)
    requires NoNuls(ps) && i < |ps| && Estimate(ps, |ps|) <= MAXALLOC
    ensures T.Printable(ps[i])
  {
    EstimateUp(ps, i + 1, |ps|);
  }

  datatype Trip = NotPrinted | NotRead | Back(hs: HStore)

  /** Printing a stored hstore without NUL bytes and reading the text gives back the
      same bytes if and only if the printer's estimate is at most one allocation and
      there are no more pairs than the reader has room for. */
  method RoundTrip(hs: HStore, ghost ps: seq<Pair>) returns (r: Trip)
    requires Sorted(ps) && Small(ps) && Packed(hs, ps) && NoNuls(ps)
    ensures r == if Estimate(ps, |ps|) > MAXALLOC then NotPrinted else if |ps| > T.MAXPAIRS then NotRead else Back(hs)
  {
    hide Sorted, Small, Packed, T.Parse, T.PrintTo, NoNuls, Estimate, T.Printable;
    var out := HstoreOut(hs, ps);
    if out.NoBuffer? {
      return NotPrinted;
    }
    forall i | 0 <= i < |ps| ensures T.Printable(ps[i]) {
      EstimateShort(ps, i);
    }
    T.ParsePrint(ps);
    var back := HstoreIn(out.text);
    if !back.Stored? {
      return NotRead;
    }
    PackedOnce(hs, back.hs, ps);
    return Back(back.hs);
  }
}
