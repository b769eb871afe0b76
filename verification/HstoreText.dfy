/** The text form of an hstore: what the reader makes of a text and what the
    printer writes. */
module HstoreText {
  import opened HstoreOrder

  /** A text is read up to its terminating NUL. */
  function At(s: string, p: nat): char {
    if p < |s| then s[p] else '\0'
  }

  predicate IsSpace(c: char) {
    c == ' ' || c == '\t' || c == '\n' || c == '\r' || c as int == 11 || c as int == 12
  }

  const MAXLEN: nat := 0x3FFF_FFFF

  /** A word's buffer can be doubled up to this size; the word is shorter. */
  const MAXWORD: nat := 0x2000_0000

  /** The array of pairs can be doubled up to this many. */
  const MAXPAIRS: nat := 0x100_0000

  // ----- reading one key or value -------------------------------------------

  datatype WordState = WaitVal | InVal | InEscVal | WaitEscIn | WaitEscEscIn

  /** What reading a word came to: nothing left, an error, no room for another
      character, or a word and the place of the last character that belongs to it
      or ends it. */
  datatype Got = Eos | BadWord | NoRoom | Word(word: string, escaped: bool, ptr: int)

  function GetVal(s: string, p: nat, st: WordState, word: string, escaped: bool, ignoreeq: bool): Got
    decreases if p < |s| then |s| - p else 0
  {
    var c := At(s, p);
    match st
    case WaitVal =>
      if c == '"' then GetVal(s, p + 1, InEscVal, word, true, ignoreeq)
      else if c == '\0' then Eos
      else if c == '=' && !ignoreeq then BadWord
      else if c == '\\' then GetVal(s, p + 1, WaitEscIn, word, escaped, ignoreeq)
      else if IsSpace(c) then GetVal(s, p + 1, WaitVal, word, escaped, ignoreeq)
      else if |word| + 1 >= MAXWORD then NoRoom
      else GetVal(s, p + 1, InVal, word + [c], escaped, ignoreeq)
    case InVal =>
      if c == '\\' then GetVal(s, p + 1, WaitEscIn, word, escaped, ignoreeq)
      else if c == '=' && !ignoreeq then Word(word, escaped, p - 1)
      else if c == ',' && ignoreeq then Word(word, escaped, p - 1)
      else if IsSpace(c) then Word(word, escaped, p)
      else if c == '\0' then Word(word, escaped, p - 1)
      else if |word| + 1 >= MAXWORD then NoRoom
      else GetVal(s, p + 1, InVal, word + [c], escaped, ignoreeq)
    case InEscVal =>
      if c == '\\' then GetVal(s, p + 1, WaitEscEscIn, word, escaped, ignoreeq)
      else if c == '"' then Word(word, escaped, p)
      else if c == '\0' then BadWord
      else if |word| + 1 >= MAXWORD then NoRoom
      else GetVal(s, p + 1, InEscVal, word + [c], escaped, ignoreeq)
    case WaitEscIn =>
      if c == '\0' then BadWord
      else if |word| + 1 >= MAXWORD then NoRoom
      else GetVal(s, p + 1, InVal, word + [c], escaped, ignoreeq)
    case WaitEscEscIn =>
      if c == '\0' then BadWord
      else if |word| + 1 >= MAXWORD then NoRoom
      else GetVal(s, p + 1, InEscVal, word + [c], escaped, ignoreeq)
  }

  function ReadWord(s: string, p: nat, ignoreeq: bool): Got {
    GetVal(s, p, WaitVal, [], false, ignoreeq)
  }

  /** A word ends within the text, not before where its reading began. */
  lemma {:induction false} WordEnds(s: string, p: nat, st: WordState, word: string, escaped: bool, ignoreeq: bool)
    requires GetVal(s, p, st, word, escaped, ignoreeq).Word?
    ensures var q := GetVal(s, p, st, word, escaped, ignoreeq).ptr;
      (if st.InVal? then p - 1 else p) <= q < |s| || (st.InVal? && p >= |s| && q == p - 1)
    decreases if p < |s| then |s| - p else 0
  {
    var c := At(s, p);
    if p < |s| {
      match st {
        case WaitVal =>
          if c == '"' { WordEnds(s, p + 1, InEscVal, word, true, ignoreeq); }
          else if c == '\\' { WordEnds(s, p + 1, WaitEscIn, word, escaped, ignoreeq); }
          else if !IsSpace(c) { WordEnds(s, p + 1, InVal, word + [c], escaped, ignoreeq); }
          else { WordEnds(s, p + 1, WaitVal, word, escaped, ignoreeq); }
        case InVal =>
          if c == '\\' { WordEnds(s, p + 1, WaitEscIn, word, escaped, ignoreeq); }
          else if !(c == '=' && !ignoreeq) && !(c == ',' && ignoreeq) && !IsSpace(c) && c != '\0' {
            WordEnds(s, p + 1, InVal, word + [c], escaped, ignoreeq);
          }
        case InEscVal =>
          if c == '\\' { WordEnds(s, p + 1, WaitEscEscIn, word, escaped, ignoreeq); }
          else if c != '"' { WordEnds(s, p + 1, InEscVal, word + [c], escaped, ignoreeq); }
        case WaitEscIn => WordEnds(s, p + 1, InVal, word + [c], escaped, ignoreeq);
        case WaitEscEscIn => WordEnds(s, p + 1, InEscVal, word + [c], escaped, ignoreeq);
      }
    }
  }

  lemma ReadWordEnds(s: string, p: nat, ignoreeq: bool)
    requires ReadWord(s, p, ignoreeq).Word?
    ensures p <= ReadWord(s, p, ignoreeq).ptr < |s|
  {
    WordEnds(s, p, WaitVal, [], false, ignoreeq);
  }

  // ----- reading pairs -----------------------------------------------------

  datatype PairState = WKey | WEq | WGt | WVal | WDel

  datatype Parsed = SyntaxError | OutOfMemory | Pairs(pairs: seq<Pair>)

  function Lower(c: char): char {
    if 'A' <= c <= 'Z' then (c as int + 32) as char else c
  }

  /** The four letters of null, in any case, not quoted. */
  predicate IsNullWord(word: string, escaped: bool) {
    |word| == 4 && !escaped && Lower(word[0]) == 'n' && Lower(word[1]) == 'u' && Lower(word[2]) == 'l' &&
    Lower(word[3]) == 'l'
  }

  function ValueOf(word: string, escaped: bool): Value {
    if IsNullWord(word, escaped) then Null else Text(word)
  }

  function Parse(s: string, p: nat, st: PairState, key: string, pairs: seq<Pair>): Parsed
    decreases if p < |s| then |s| - p else 0
  {
    var c := At(s, p);
    match st
    case WKey =>
      var w := ReadWord(s, p, false);
      if w.Eos? then Pairs(pairs)
      else if w.BadWord? then SyntaxError
      else if w.NoRoom? || |pairs| >= MAXPAIRS then OutOfMemory
      else if |w.word| > MAXLEN then SyntaxError
      else
        ReadWordEnds(s, p, false);
        Parse(s, w.ptr + 1, WEq, w.word, pairs)
    case WEq =>
      if c == '=' then Parse(s, p + 1, WGt, key, pairs)
      else if c == '\0' || !IsSpace(c) then SyntaxError
      else Parse(s, p + 1, WEq, key, pairs)
    case WGt =>
      if c == '>' then Parse(s, p + 1, WVal, key, pairs) else SyntaxError
    case WVal =>
      var w := ReadWord(s, p, true);
      if w.NoRoom? then OutOfMemory
      else if !w.Word? || |w.word| > MAXLEN then SyntaxError
      else
        ReadWordEnds(s, p, true);
        Parse(s, w.ptr + 1, WDel, [], pairs + [Pair(key, ValueOf(w.word, w.escaped))])
    case WDel =>
      if c == ',' then Parse(s, p + 1, WKey, [], pairs)
      else if c == '\0' then Pairs(pairs)
      else if !IsSpace(c) then SyntaxError
      else Parse(s, p + 1, WDel, [], pairs)
  }

  function ParseText(s: string): Parsed {
    Parse(s, 0, WKey, [], [])
  }

  // ----- printing ----------------------------------------------------------

  predicate Special(c: char) {
    c == '"' || c == '\\'
  }

  /** The first n characters with quotes and backslashes escaped. */
  function Escape(w: string, n: nat): string
    requires n <= |w|
  {
    if n == 0 then [] else Escape(w, n - 1) + (if Special(w[n - 1]) then ['\\'] else []) + [w[n - 1]]
  }

  function Quoted(w: string): string {
    ['"'] + Escape(w, |w|) + ['"']
  }

  function PairText(p: Pair): string {
    Quoted(p.key) + ['=', '>'] + if p.val.Null? then ['N', 'U', 'L', 'L'] else Quoted(p.val.text)
  }

  /** The text of the first n pairs, with what separates them from the next. */
  function PrintTo(ps: seq<Pair>, n: nat): string
    requires n <= |ps|
  {
    if n == 0 then [] else PrintTo(ps, n - 1) + PairText(ps[n - 1]) + if n < |ps| then [',', ' '] else []
  }

  function Print(ps: seq<Pair>): string {
    PrintTo(ps, |ps|)
  }

  // ----- where the parts of a printed text are -------------------------------

  function EscLen(w: string): nat {
    if w == [] then 0 else (if Special(w[0]) then 2 else 1) + EscLen(w[1..])
  }

  /** s has w, escaped, from p on. */
  predicate Spells(s: string, p: nat, w: string)
    decreases |w|
  {
    w == [] ||
    if Special(w[0]) then At(s, p) == '\\' && At(s, p + 1) == w[0] && Spells(s, p + 2, w[1..])
    else At(s, p) == w[0] && Spells(s, p + 1, w[1..])
  }

  /** s has w in quotes from p on, the closing quote at QuoteEnd. */
  function QuoteEnd(p: nat, w: string): nat {
    p + 1 + EscLen(w)
  }

  predicate HasQuoted(s: string, p: nat, w: string) {
    At(s, p) == '"' && Spells(s, p + 1, w) && At(s, QuoteEnd(p, w)) == '"'
  }

  function ValEnd(p: nat, v: Value): nat {
    if v.Null? then p + 4 else QuoteEnd(p, v.text) + 1
  }

  predicate HasValue(s: string, p: nat, v: Value) {
    if v.Null? then At(s, p) == 'N' && At(s, p + 1) == 'U' && At(s, p + 2) == 'L' && At(s, p + 3) == 'L'
    else HasQuoted(s, p, v.text)
  }

  function PairEnd(p: nat, pair: Pair): nat {
    ValEnd(QuoteEnd(p, pair.key) + 3, pair.val)
  }

  predicate HasPair(s: string, p: nat, pair: Pair) {
    var a := QuoteEnd(p, pair.key);
    HasQuoted(s, p, pair.key) && At(s, a + 1) == '=' && At(s, a + 2) == '>' && HasValue(s, a + 3, pair.val)
  }

  /** s has the pairs from i on, from p to its end. */
  predicate HasPairs(s: string, p: nat, ps: seq<Pair>, i: nat)
    decreases |ps| - i
  {
    i >= |ps| ||
    (HasPair(s, p, ps[i]) &&
     var e := PairEnd(p, ps[i]);
     if i + 1 == |ps| then e == |s| else At(s, e) == ',' && At(s, e + 1) == ' ' && HasPairs(s, e + 2, ps, i + 1))
  }

  predicate NoNul(w: string) {
    forall i :: 0 <= i < |w| ==> w[i] != '\0'
  }

  /** Without NUL bytes, and short enough to be read. */
  predicate Printable(p: Pair) {
    |p.key| < MAXWORD && NoNul(p.key) && (p.val.Text? ==> |p.val.text| < MAXWORD && NoNul(p.val.text))
  }

  // ----- reading back what was printed ----------------------------------------

  /** Reading escaped characters gives the characters. */
  lemma {:induction false} ReadsSpelled(s: string, p: nat, w: string, word: string, ignoreeq: bool)
    requires Spells(s, p, w) && NoNul(w) && At(s, p + EscLen(w)) == '"' && |word| + |w| < MAXWORD
    ensures GetVal(s, p, InEscVal, word, true, ignoreeq) == Word(word + w, true, p + EscLen(w))
    decreases |w|
  {
    if w == [] {
      assert word + w == word;
    } else {
      var rest := w[1..];
      assert NoNul(rest);
      assert word + [w[0]] + rest == word + w;
      if Special(w[0]) {
        InRange(s, p + 1);
        ReadsSpelled(s, p + 2, rest, word + [w[0]], ignoreeq);
        assert GetVal(s, p, InEscVal, word, true, ignoreeq) == GetVal(s, p + 1, WaitEscEscIn, word, true, ignoreeq);
      } else {
        InRange(s, p);
        ReadsSpelled(s, p + 1, rest, word + [w[0]], ignoreeq);
      }
    }
  }

  lemma InRange(s: string, p: nat)
    requires At(s, p) != '\0'
    ensures p < |s|
  {
  }

  lemma ReadsQuoted(s: string, p: nat, w: string, ignoreeq: bool)
    requires HasQuoted(s, p, w) && NoNul(w) && |w| < MAXWORD
    ensures ReadWord(s, p, ignoreeq) == Word(w, true, QuoteEnd(p, w))
  {
    ReadsSpelled(s, p + 1, w, [], ignoreeq);
    assert [] + w == w;
  }

  lemma SkipsSpace(s: string, p: nat, ignoreeq: bool)
    requires At(s, p) == ' '
    ensures ReadWord(s, p, ignoreeq) == ReadWord(s, p + 1, ignoreeq)
  {
  }

  lemma ReadsNull(s: string, p: nat)
    requires HasValue(s, p, Null) && (At(s, p + 4) == ',' || At(s, p + 4) == '\0')
    ensures ReadWord(s, p, true) == Word(['N', 'U', 'L', 'L'], false, p + 3)
  {
    assert [] + ['N'] == ['N'];
    assert ReadWord(s, p, true) == GetVal(s, p + 1, InVal, ['N'], false, true);
    PlainStep(s, p + 1, ['N']);
    assert ['N'] + ['U'] == ['N', 'U'];
    PlainStep(s, p + 2, ['N', 'U']);
    assert ['N', 'U'] + ['L'] == ['N', 'U', 'L'];
    PlainStep(s, p + 3, ['N', 'U', 'L']);
    assert ['N', 'U', 'L'] + ['L'] == ['N', 'U', 'L', 'L'];
  }

  lemma PlainStep(s: string, p: nat, word: string)
    requires (At(s, p) == 'U' || At(s, p) == 'L') && |word| < 4
    ensures GetVal(s, p, InVal, word, false, true) == GetVal(s, p + 1, InVal, word + [At(s, p)], false, true)
  {
  }

  lemma ReadsValue(s: string, p: nat, v: Value)
    requires HasValue(s, p, v) && (v.Text? ==> NoNul(v.text) && |v.text| < MAXWORD)
    requires At(s, ValEnd(p, v)) == ',' || At(s, ValEnd(p, v)) == '\0'
    ensures var w := ReadWord(s, p, true);
      w.Word? && |w.word| <= MAXLEN && ValueOf(w.word, w.escaped) == v && w.ptr + 1 == ValEnd(p, v)
  {
    if v.Null? { ReadsNull(s, p); } else { ReadsQuoted(s, p, v.text, true); }
  }

  /** From a key on, the reader takes one pair and stops at what follows it. */
  lemma ReadsPairText(s: string, p: nat, q: nat, pair: Pair, pairs: seq<Pair>)
    requires HasPair(s, p, pair) && Printable(pair) && ReadWord(s, q, false) == ReadWord(s, p, false)
    requires |pairs| < MAXPAIRS
    requires At(s, PairEnd(p, pair)) == ',' || At(s, PairEnd(p, pair)) == '\0'
    ensures Parse(s, q, WKey, [], pairs) == Parse(s, PairEnd(p, pair), WDel, [], pairs + [pair])
  {
    hide Spells, GetVal, ReadWord;
    var a := QuoteEnd(p, pair.key);
    ReadsQuoted(s, p, pair.key, false);
    ReadsValue(s, a + 3, pair.val);
    StepKey(s, q, pairs);
    StepArrow(s, a + 1, pair.key, pairs);
    StepVal(s, a + 3, pair.key, pairs);
  }

  lemma StepKey(s: string, q: nat, pairs: seq<Pair>)
    requires ReadWord(s, q, false).Word? && |ReadWord(s, q, false).word| <= MAXLEN && ReadWord(s, q, false).ptr >= 0
    requires |pairs| < MAXPAIRS
    ensures var w := ReadWord(s, q, false); Parse(s, q, WKey, [], pairs) == Parse(s, w.ptr + 1, WEq, w.word, pairs)
  {
    hide ReadWord;
  }

  lemma StepArrow(s: string, p: nat, key: string, pairs: seq<Pair>)
    requires At(s, p) == '=' && At(s, p + 1) == '>'
    ensures Parse(s, p, WEq, key, pairs) == Parse(s, p + 2, WVal, key, pairs)
  {
    hide ReadWord;
    assert Parse(s, p, WEq, key, pairs) == Parse(s, p + 1, WGt, key, pairs);
  }

  lemma StepVal(s: string, p: nat, key: string, pairs: seq<Pair>)
    requires ReadWord(s, p, true).Word? && |ReadWord(s, p, true).word| <= MAXLEN && ReadWord(s, p, true).ptr >= 0
    ensures var w := ReadWord(s, p, true);
      Parse(s, p, WVal, key, pairs) == Parse(s, w.ptr + 1, WDel, [], pairs + [Pair(key, ValueOf(w.word, w.escaped))])
  {
    hide ReadWord;
  }

  /** Reading a text that has the pairs from i on adds them to those read. */
  lemma {:induction false} ReadsPairs(s: string, p: nat, q: nat, ps: seq<Pair>, i: nat)
    requires HasPairs(s, p, ps, i) && i < |ps| && forall k :: 0 <= k < |ps| ==> Printable(ps[k])
    requires ReadWord(s, q, false) == ReadWord(s, p, false)
    requires i <= MAXPAIRS
    ensures Parse(s, q, WKey, [], ps[..i]) == if |ps| <= MAXPAIRS then Pairs(ps) else OutOfMemory
    decreases |ps| - i
  {
    hide GetVal, HasPair, Printable, ReadWord;
    if i == MAXPAIRS {
      NoMorePairs(s, p, q, ps[i], ps[..i]);
      return;
    }
    var e := PairEnd(p, ps[i]);
    ReadsPairText(s, p, q, ps[i], ps[..i]);
    assert ps[..i] + [ps[i]] == ps[..i + 1];
    if i + 1 == |ps| {
      assert ps[..i + 1] == ps;
      EndsHere(s, e, ps);
    } else {
      NextKey(s, e, ps[..i + 1]);
      SkipsSpace(s, e + 1, false);
      ReadsPairs(s, e + 2, e + 1, ps, i + 1);
    }
  }

  /** A key after the last pair there is room for. */
  lemma NoMorePairs(s: string, p: nat, q: nat, pair: Pair, pairs: seq<Pair>)
    requires HasPair(s, p, pair) && Printable(pair) && ReadWord(s, q, false) == ReadWord(s, p, false)
    requires |pairs| >= MAXPAIRS
    ensures Parse(s, q, WKey, [], pairs) == OutOfMemory
  {
    hide Spells, GetVal, ReadWord;
    ReadsQuoted(s, p, pair.key, false);
  }

  lemma EndsHere(s: string, e: nat, pairs: seq<Pair>)
    requires e == |s|
    ensures Parse(s, e, WDel, [], pairs) == Pairs(pairs)
  {
  }

  lemma NextKey(s: string, e: nat, pairs: seq<Pair>)
    requires At(s, e) == ','
    ensures Parse(s, e, WDel, [], pairs) == Parse(s, e + 1, WKey, [], pairs)
  {
    hide ReadWord;
  }

  // ----- what was printed is there ---------------------------------------------

  lemma {:induction false} EscLenSnoc(w: string, c: char)
    ensures EscLen(w + [c]) == EscLen(w) + if Special(c) then 2 else 1
  {
    if w != [] {
      assert (w + [c])[1..] == w[1..] + [c];
      EscLenSnoc(w[1..], c);
    }
  }

  lemma {:induction false} EscapeLength(w: string, n: nat)
    requires n <= |w|
    ensures |Escape(w, n)| == EscLen(w[..n]) && n <= |Escape(w, n)| <= 2 * n
  {
    if n > 0 {
      EscapeLength(w, n - 1);
      EscLenSnoc(w[..n - 1], w[n - 1]);
      assert w[..n] == w[..n - 1] + [w[n - 1]];
    }
  }

  lemma {:induction false} SpellsSnoc(s: string, p: nat, w: string, c: char)
    requires Spells(s, p, w)
    requires var e := p + EscLen(w);
      if Special(c) then At(s, e) == '\\' && At(s, e + 1) == c else At(s, e) == c
    ensures Spells(s, p, w + [c])
    decreases |w|
  {
    var wc := w + [c];
    if w == [] {
      assert wc[1..] == [];
    } else {
      assert wc[1..] == w[1..] + [c];
      SpellsSnoc(s, if Special(w[0]) then p + 2 else p + 1, w[1..], c);
    }
  }

  /** t stands in s from p on. */
  predicate Has(s: string, p: nat, t: string) {
    p + |t| <= |s| && s[p..p + |t|] == t
  }

  lemma HasSplit(s: string, p: nat, a: string, b: string)
    requires Has(s, p, a + b)
    ensures Has(s, p, a) && Has(s, p + |a|, b)
  {
    var t := s[p..p + |a + b|];
    assert t[..|a|] == a && t[|a|..] == b;
    assert s[p..p + |a|] == t[..|a|] && s[p + |a|..p + |a| + |b|] == t[|a|..];
  }

  lemma HasChar(s: string, p: nat, c: char)
    requires Has(s, p, [c])
    ensures At(s, p) == c
  {
    assert s[p..p + 1][0] == c;
  }

  lemma {:induction false} EscapeSpells(s: string, p: nat, w: string, n: nat)
    requires n <= |w| && Has(s, p, Escape(w, n))
    ensures Spells(s, p, w[..n])
  {
    if n > 0 {
      var c, esc := w[n - 1], if Special(w[n - 1]) then ['\\'] else [];
      assert Escape(w, n) == Escape(w, n - 1) + esc + [c];
      hide Escape, Has, At, Spells;
      HasSplit(s, p, Escape(w, n - 1) + esc, [c]);
      HasSplit(s, p, Escape(w, n - 1), esc);
      EscapeSpells(s, p, w, n - 1);
      EscapeLength(w, n - 1);
      HasChar(s, p + |Escape(w, n - 1) + esc|, c);
      if Special(c) { HasChar(s, p + |Escape(w, n - 1)|, '\\'); }
      SpellsSnoc(s, p, w[..n - 1], c);
      assert w[..n] == w[..n - 1] + [c];
    }
  }

  lemma QuotedHas(s: string, p: nat, w: string)
    requires Has(s, p, Quoted(w))
    ensures HasQuoted(s, p, w) && |Quoted(w)| == EscLen(w) + 2
  {
    hide Escape, Spells;
    var e := Escape(w, |w|);
    HasSplit(s, p, ['"'] + e, ['"']);
    HasSplit(s, p, ['"'], e);
    HasChar(s, p, '"');
    EscapeLength(w, |w|);
    EscapeSpells(s, p + 1, w, |w|);
    assert w[..|w|] == w;
    HasChar(s, p + |['"'] + e|, '"');
  }

  lemma NullHas(s: string, p: nat)
    requires Has(s, p, ['N', 'U', 'L', 'L'])
    ensures HasValue(s, p, Null)
  {
    var t := s[p..p + 4];
    assert t[0] == s[p] && t[1] == s[p + 1] && t[2] == s[p + 2] && t[3] == s[p + 3];
  }

  function ValText(v: Value): string {
    if v.Null? then ['N', 'U', 'L', 'L'] else Quoted(v.text)
  }

  lemma PairHas(s: string, p: nat, pair: Pair)
    requires Has(s, p, PairText(pair))
    ensures HasPair(s, p, pair) && p + |PairText(pair)| == PairEnd(p, pair)
  {
    hide Quoted, Has, HasQuoted;
    var k, arrow, v := Quoted(pair.key), ['=', '>'], ValText(pair.val);
    assert PairText(pair) == k + arrow + v;
    HasSplit(s, p, k + arrow, v);
    HasSplit(s, p, k, arrow);
    QuotedHas(s, p, pair.key);
    ArrowHas(s, p + |k|);
    if pair.val.Null? {
      NullHas(s, p + |k| + 2);
    } else {
      QuotedHas(s, p + |k| + 2, pair.val.text);
    }
  }

  lemma ArrowHas(s: string, p: nat)
    requires Has(s, p, ['=', '>'])
    ensures At(s, p) == '=' && At(s, p + 1) == '>'
  {
    var t := s[p..p + 2];
    assert t[0] == s[p] && t[1] == s[p + 1];
  }

  lemma CommaHas(s: string, p: nat)
    requires Has(s, p, [',', ' '])
    ensures At(s, p) == ',' && At(s, p + 1) == ' '
  {
    var t := s[p..p + 2];
    assert t[0] == s[p] && t[1] == s[p + 1];
  }

  function Tail(ps: seq<Pair>, n: nat): string {
    if n < |ps| then [',', ' '] else []
  }

  lemma {:induction false} PrintPrefix(ps: seq<Pair>, i: nat, n: nat)
    requires i <= n <= |ps|
    ensures |PrintTo(ps, i)| <= |PrintTo(ps, n)| && PrintTo(ps, n)[..|PrintTo(ps, i)|] == PrintTo(ps, i)
  {
    hide PrintTo, PairText, Tail;
    if i < n {
      PrintPrefix(ps, i, n - 1);
      PrintStep(ps, n - 1);
      PrefixOfLonger(PrintTo(ps, i), PrintTo(ps, n - 1), PairText(ps[n - 1]) + Tail(ps, n));
    } else {
      assert PrintTo(ps, n)[..|PrintTo(ps, i)|] == PrintTo(ps, i);
    }
  }

  lemma PrefixOfLonger(a: string, b: string, c: string)
    requires |a| <= |b| && b[..|a|] == a
    ensures (b + c)[..|a|] == a
  {
  }

  lemma PrefixHas(s: string, a: string, b: string)
    requires |a + b| <= |s| && s[..|a + b|] == a + b
    ensures Has(s, |a|, b)
  {
    assert s[|a|..|a| + |b|] == s[..|a + b|][|a|..];
  }

  lemma PrintStep(ps: seq<Pair>, i: nat)
    requires i < |ps|
    ensures PrintTo(ps, i + 1) == PrintTo(ps, i) + (PairText(ps[i]) + Tail(ps, i + 1))
  {
  }

  lemma PairPlaced(ps: seq<Pair>, i: nat)
    requires i < |ps|
    ensures var s, a := Print(ps), |PrintTo(ps, i)|;
      HasPair(s, a, ps[i]) && var e := PairEnd(a, ps[i]);
      if i + 1 == |ps| then e == |s| else At(s, e) == ',' && At(s, e + 1) == ' ' && |PrintTo(ps, i + 1)| == e + 2
  {
    hide PrintTo, PairText, HasPair, PairEnd, Has;
    var s, a, b, t := Print(ps), PrintTo(ps, i), PairText(ps[i]), Tail(ps, i + 1);
    PrintPrefix(ps, i + 1, |ps|);
    PrintStep(ps, i);
    PrefixHas(s, a, b + t);
    HasSplit(s, |a|, b, t);
    PairHas(s, |a|, ps[i]);
    if i + 1 < |ps| { CommaHas(s, |a| + |b|); }
  }

  lemma {:induction false} PrintHasPairs(ps: seq<Pair>, i: nat)
    requires i <= |ps|
    ensures HasPairs(Print(ps), |PrintTo(ps, i)|, ps, i)
    decreases |ps| - i
  {
    hide PrintTo, HasPair, PairEnd;
    if i < |ps| {
      PairPlaced(ps, i);
      PrintHasPairs(ps, i + 1);
    }
  }

  /** Reading the text printed for any such pairs gives the pairs if and only if
      there is room for that many. */
  lemma ParsePrint(ps: seq<Pair>)
    requires forall i :: 0 <= i < |ps| ==> Printable(ps[i])
    ensures ParseText(Print(ps)) == if |ps| <= MAXPAIRS then Pairs(ps) else OutOfMemory
  {
    if ps != [] {
      PrintHasPairs(ps, 0);
      hide HasPairs, Parse, PrintTo;
      assert |PrintTo(ps, 0)| == 0 by { PrintNone(ps); }
      ReadsPairs(Print(ps), 0, 0, ps, 0);
      assert ps[..0] == [];
    }
  }

  lemma PrintNone(ps: seq<Pair>)
    ensures PrintTo(ps, 0) == []
  {
  }
}
