/**
  The rounds of AesRounds column by column, each column one number of 32 bits.
 */
module AesWords {

  import opened AesField
  import opened AesTables
  import opened AesRounds

  function B0(x: bv32): Byte {
    Byte(((x >> 24) & 0xff) as bv8)
  }

  function B1(x: bv32): Byte {
    Byte(((x >> 16) & 0xff) as bv8)
  }

  function B2(x: bv32): Byte {
    Byte(((x >> 8) & 0xff) as bv8)
  }

  function B3(x: bv32): Byte {
    Byte((x & 0xff) as bv8)
  }

  function Join(a: Byte, b: Byte, c: Byte, d: Byte): bv32 {
    (a.v as bv32 << 24) | (b.v as bv32 << 16) | (c.v as bv32 << 8) | (d.v as bv32)
  }

  /** The sum of two words. */
  function Sum(x: bv32, y: bv32): bv32 {
    x ^ y
  }

  lemma Joined(a: Byte, b: Byte, c: Byte, d: Byte)
    ensures var x := Join(a, b, c, d); B0(x) == a && B1(x) == b && B2(x) == c && B3(x) == d
  {}

  lemma SumOfBytes(x: bv32, y: bv32)
    ensures B0(Sum(x, y)) == Xor(B0(x), B0(y)) && B1(Sum(x, y)) == Xor(B1(x), B1(y))
    ensures B2(Sum(x, y)) == Xor(B2(x), B2(y)) && B3(Sum(x, y)) == Xor(B3(x), B3(y))
  {}

  /** The four bytes of a word, the most significant first. */
  function Word(x: bv32): (t: Bytes)
    ensures IsWord(t)
  {
    [B0(x), B1(x), B2(x), B3(x)]
  }

  /** A block given by its columns. */
  function Block(p: bv32, q: bv32, r: bv32, s: bv32): (b: Bytes)
    ensures IsBlock(b)
  {
    Word(p) + Word(q) + Word(r) + Word(s)
  }

  lemma SumOfWords(x: bv32, y: bv32)
    ensures XorWord(Word(x), Word(y)) == Word(Sum(x, y))
  {
    hide B0, B1, B2, B3, Xor, Sum;
    SumOfBytes(x, y);
  }

  lemma XorByWords(a: Bytes, b: Bytes, c: Bytes, d: Bytes, a': Bytes, b': Bytes, c': Bytes, d': Bytes)
    requires IsWord(a) && IsWord(b) && IsWord(c) && IsWord(d)
    requires IsWord(a') && IsWord(b') && IsWord(c') && IsWord(d')
    ensures XorBlock(a + b + c + d, a' + b' + c' + d')
      == XorWord(a, a') + XorWord(b, b') + XorWord(c, c') + XorWord(d, d')
  {
    hide Xor;
  }

  lemma SumOfBlocks(p: bv32, q: bv32, r: bv32, s: bv32, k: bv32, l: bv32, m: bv32, n: bv32)
    ensures XorBlock(Block(p, q, r, s), Block(k, l, m, n)) == Block(Sum(p, k), Sum(q, l), Sum(r, m), Sum(s, n))
  {
    hide Word, XorWord, XorBlock, Sum;
    SumOfWords(p, k);
    SumOfWords(q, l);
    SumOfWords(r, m);
    SumOfWords(s, n);
    XorByWords(Word(p), Word(q), Word(r), Word(s), Word(k), Word(l), Word(m), Word(n));
  }

  // ---------------------------------------------------------------------
  // Substituting and shifting
  // ---------------------------------------------------------------------

  /** A column after substitution and shifting: its bytes come from one column each. */
  function Scrambled(p: bv32, q: bv32, r: bv32, s: bv32): bv32 {
    Join(Sub(B0(p)), Sub(B1(q)), Sub(B2(r)), Sub(B3(s)))
  }

  lemma ScrambledAt(b: Bytes, i: nat)
    requires IsBlock(b) && i < 16
    ensures Scramble(b)[i] == Sub(b[ShiftFrom(i)])
  {
    hide Sub, ShiftFrom;
  }

  lemma ShiftPlaces()
    ensures ShiftFrom(0) == 0 && ShiftFrom(1) == 5 && ShiftFrom(2) == 10 && ShiftFrom(3) == 15
    ensures ShiftFrom(4) == 4 && ShiftFrom(5) == 9 && ShiftFrom(6) == 14 && ShiftFrom(7) == 3
    ensures ShiftFrom(8) == 8 && ShiftFrom(9) == 13 && ShiftFrom(10) == 2 && ShiftFrom(11) == 7
    ensures ShiftFrom(12) == 12 && ShiftFrom(13) == 1 && ShiftFrom(14) == 6 && ShiftFrom(15) == 11
  {}

  lemma ScrambledWords(a: Bytes, b: Bytes, c: Bytes, d: Bytes)
    requires IsWord(a) && IsWord(b) && IsWord(c) && IsWord(d)
    ensures Scramble(a + b + c + d)
      == [Sub(a[0]), Sub(b[1]), Sub(c[2]), Sub(d[3])] + [Sub(b[0]), Sub(c[1]), Sub(d[2]), Sub(a[3])]
      + [Sub(c[0]), Sub(d[1]), Sub(a[2]), Sub(b[3])] + [Sub(d[0]), Sub(a[1]), Sub(b[2]), Sub(c[3])]
  {
    hide Sub, ShiftFrom, ShiftRows, SubBytes;
    ShiftPlaces();
    var t := a + b + c + d;
    var r := Scramble(t);
    forall i: nat | i < 16 ensures r[i] == Sub(t[ShiftFrom(i)]) {
      ScrambledAt(t, i);
    }
    assert r[0] == Sub(a[0]) && r[1] == Sub(b[1]) && r[2] == Sub(c[2]) && r[3] == Sub(d[3]);
    assert r[4] == Sub(b[0]) && r[5] == Sub(c[1]) && r[6] == Sub(d[2]) && r[7] == Sub(a[3]);
    assert r[8] == Sub(c[0]) && r[9] == Sub(d[1]) && r[10] == Sub(a[2]) && r[11] == Sub(b[3]);
    assert r[12] == Sub(d[0]) && r[13] == Sub(a[1]) && r[14] == Sub(b[2]) && r[15] == Sub(c[3]);
  }

  lemma ScrambledIs(p: bv32, q: bv32, r: bv32, s: bv32)
    ensures Word(Scrambled(p, q, r, s)) == [Sub(Word(p)[0]), Sub(Word(q)[1]), Sub(Word(r)[2]), Sub(Word(s)[3])]
  {
    hide Join, B0, B1, B2, B3, Sub;
    Joined(Sub(B0(p)), Sub(B1(q)), Sub(B2(r)), Sub(B3(s)));
  }

  lemma ScrambledColumns(p: bv32, q: bv32, r: bv32, s: bv32)
    ensures Scramble(Block(p, q, r, s))
      == Block(Scrambled(p, q, r, s), Scrambled(q, r, s, p), Scrambled(r, s, p, q), Scrambled(s, p, q, r))
  {
    hide Word, Sub, Scramble, Scrambled;
    ScrambledWords(Word(p), Word(q), Word(r), Word(s));
    ScrambledIs(p, q, r, s);
    ScrambledIs(q, r, s, p);
    ScrambledIs(r, s, p, q);
    ScrambledIs(s, p, q, r);
  }

  // ---------------------------------------------------------------------
  // Mixing
  // ---------------------------------------------------------------------

  /** Multiplication by x, in four bytes at once. */
  function XtimeWord(x: bv32): bv32 {
    var y := (x >> 7) & 0x01010101;
    ((x & 0x7f7f7f7f) << 1) ^ y ^ (y << 1) ^ (y << 3) ^ (y << 4)
  }

  lemma XtimeBytes(x: bv32)
    ensures B0(XtimeWord(x)) == X(B0(x)) && B1(XtimeWord(x)) == X(B1(x))
    ensures B2(XtimeWord(x)) == X(B2(x)) && B3(XtimeWord(x)) == X(B3(x))
  {}

  function Turned(x: bv32): bv32 {
    (x << 8) | (x >> 24)
  }

  lemma TurnedBytes(x: bv32)
    ensures B0(Turned(x)) == B1(x) && B1(Turned(x)) == B2(x)
    ensures B2(Turned(x)) == B3(x) && B3(Turned(x)) == B0(x)
  {}

  /** A mixed column, by operations on whole words. */
  function Mixed(x: bv32): bv32 {
    Sum(XtimeWord(Sum(x, Turned(x))), Turned(Sum(x, Turned(Sum(x, Turned(x))))))
  }

  lemma MixByteIs(a: Byte, b: Byte, c: Byte, d: Byte)
    ensures MixByte(a, b, c, d) == Xor(X(Xor(a, b)), Xor(b, Xor(c, d)))
  {
    hide Mul, X, Xor;
    XLinear(a, b);
    Times2(a);
    Times3(b);
    XorAssociates(X(a), X(b), b);
    XorAssociates(Xor(X(a), X(b)), b, Xor(c, d));
  }

  function MixedBytes(t: Bytes): (r: Bytes)
    requires IsWord(t)
    ensures IsWord(r)
  {
    [MixByte(t[0], t[1], t[2], t[3]), MixByte(t[1], t[2], t[3], t[0]),
     MixByte(t[2], t[3], t[0], t[1]), MixByte(t[3], t[0], t[1], t[2])]
  }

  lemma MixedWord(x: bv32)
    ensures Word(Mixed(x)) == MixedBytes(Word(x))
  {
    hide B0, B1, B2, B3, XtimeWord, X, Turned, Sum, MixByte, Xor;
    var y := Sum(x, Turned(x));
    var z := Sum(x, Turned(y));
    TurnedBytes(x);
    TurnedBytes(y);
    TurnedBytes(z);
    XtimeBytes(y);
    SumOfBytes(x, Turned(x));
    SumOfBytes(x, Turned(y));
    SumOfBytes(XtimeWord(y), Turned(z));
    MixByteIs(B0(x), B1(x), B2(x), B3(x));
    MixByteIs(B1(x), B2(x), B3(x), B0(x));
    MixByteIs(B2(x), B3(x), B0(x), B1(x));
    MixByteIs(B3(x), B0(x), B1(x), B2(x));
  }

  lemma ColumnPlaces(i: nat, k: nat)
    requires i < 16 && k < 4
    ensures InColumn(i, k) == if i % 4 + k < 4 then i + k else i + k - 4
  {
    assert i + k == 4 * (i / 4) + (i % 4 + k);
  }

  lemma MixedWords(a: Bytes, b: Bytes, c: Bytes, d: Bytes)
    requires IsWord(a) && IsWord(b) && IsWord(c) && IsWord(d)
    ensures MixColumns(a + b + c + d) == MixedBytes(a) + MixedBytes(b) + MixedBytes(c) + MixedBytes(d)
  {
    hide InColumn, MixByte;
    var t := a + b + c + d;
    forall i: nat, k: nat | i < 16 && k < 4
      ensures InColumn(i, k) == if i % 4 + k < 4 then i + k else i + k - 4
    {
      ColumnPlaces(i, k);
    }
  }

  lemma MixedColumns(p: bv32, q: bv32, r: bv32, s: bv32)
    ensures MixColumns(Block(p, q, r, s)) == Block(Mixed(p), Mixed(q), Mixed(r), Mixed(s))
  {
    hide Word, Mixed, MixedBytes, MixColumns;
    MixedWord(p);
    MixedWord(q);
    MixedWord(r);
    MixedWord(s);
    MixedWords(Word(p), Word(q), Word(r), Word(s));
  }

  // ---------------------------------------------------------------------
  // Rounds
  // ---------------------------------------------------------------------

  /** One column of the next state; `k` is its word of the round key. */
  function RoundColumn(p: bv32, q: bv32, r: bv32, s: bv32, k: bv32): bv32 {
    Sum(Mixed(Scrambled(p, q, r, s)), k)
  }

  /** For every state and round key, a round is what it is on the columns. */
  lemma RoundByColumns(p: bv32, q: bv32, r: bv32, s: bv32, k: bv32, l: bv32, m: bv32, n: bv32)
    ensures XorBlock(MixColumns(Scramble(Block(p, q, r, s))), Block(k, l, m, n))
      == Block(RoundColumn(p, q, r, s, k), RoundColumn(q, r, s, p, l),
        RoundColumn(r, s, p, q, m), RoundColumn(s, p, q, r, n))
  {
    hide Block, Scrambled, Mixed, MixColumns, XorBlock, Scramble, Sum;
    ScrambledColumns(p, q, r, s);
    MixedColumns(Scrambled(p, q, r, s), Scrambled(q, r, s, p), Scrambled(r, s, p, q), Scrambled(s, p, q, r));
    SumOfBlocks(Mixed(Scrambled(p, q, r, s)), Mixed(Scrambled(q, r, s, p)), Mixed(Scrambled(r, s, p, q)),
      Mixed(Scrambled(s, p, q, r)), k, l, m, n);
  }

  /** The last round mixes no columns. */
  lemma LastByColumns(p: bv32, q: bv32, r: bv32, s: bv32, k: bv32, l: bv32, m: bv32, n: bv32)
    ensures XorBlock(Scramble(Block(p, q, r, s)), Block(k, l, m, n))
      == Block(Sum(Scrambled(p, q, r, s), k), Sum(Scrambled(q, r, s, p), l), Sum(Scrambled(r, s, p, q), m),
        Sum(Scrambled(s, p, q, r), n))
  {
    hide Block, Scrambled, XorBlock, Scramble, Sum;
    ScrambledColumns(p, q, r, s);
    SumOfBlocks(Scrambled(p, q, r, s), Scrambled(q, r, s, p), Scrambled(r, s, p, q), Scrambled(s, p, q, r), k, l, m, n);
  }

  // Substituting a word at a time, then taking one byte of each word.

  function SubWords(x: bv32): bv32 {
    Join(Sub(B0(x)), Sub(B1(x)), Sub(B2(x)), Sub(B3(x)))
  }

  function Gathered(p: bv32, q: bv32, r: bv32, s: bv32): bv32 {
    (p & 0xff000000) | (q & 0xff0000) | (r & 0xff00) | (s & 0xff)
  }

  lemma GatheredJoins(p: bv32, q: bv32, r: bv32, s: bv32)
    ensures Gathered(p, q, r, s) == Join(B0(p), B1(q), B2(r), B3(s))
  {}

  lemma ScrambledIsGathered(p: bv32, q: bv32, r: bv32, s: bv32)
    ensures Scrambled(p, q, r, s) == Gathered(SubWords(p), SubWords(q), SubWords(r), SubWords(s))
  {
    hide Sub, B0, B1, B2, B3, Join, Gathered;
    GatheredJoins(SubWords(p), SubWords(q), SubWords(r), SubWords(s));
    Joined(Sub(B0(p)), Sub(B1(p)), Sub(B2(p)), Sub(B3(p)));
    Joined(Sub(B0(q)), Sub(B1(q)), Sub(B2(q)), Sub(B3(q)));
    Joined(Sub(B0(r)), Sub(B1(r)), Sub(B2(r)), Sub(B3(r)));
    Joined(Sub(B0(s)), Sub(B1(s)), Sub(B2(s)), Sub(B3(s)));
  }

  // ---------------------------------------------------------------------
  // Key schedule
  // ---------------------------------------------------------------------

  /** The word that is added to word `n - nk`, with the round constants written as powers of x. */
  function TempColumn(x: bv32, n: nat, nk: nat): bv32
    requires KeyWords(nk) && n >= nk && n / nk <= 10
  {
    if n % nk == 0 then Sum(SubWords(Turned(x)), Join(Byte(PowerOfX(n / nk - 1)), ZERO, ZERO, ZERO))
    else if nk == 8 && n % 8 == 4 then SubWords(x)
    else x
  }

  lemma SubWordsIs(x: bv32)
    ensures SubBytes(Word(x)) == Word(SubWords(x))
  {
    hide B0, B1, B2, B3, Sub, Join;
    Joined(Sub(B0(x)), Sub(B1(x)), Sub(B2(x)), Sub(B3(x)));
  }

  lemma TurnedIs(x: bv32)
    ensures RotWord(Word(x)) == Word(Turned(x))
  {
    hide B0, B1, B2, B3, Turned;
    TurnedBytes(x);
  }

  lemma TempIs(x: bv32, n: nat, nk: nat)
    requires KeyWords(nk) && n >= nk && n / nk <= 10
    ensures Temp(Word(x), n, nk) == Word(TempColumn(x, n, nk))
  {
    hide Word, SubBytes, RotWord, XorWord, SubWords, Turned, Sum, Join, PowerOfX, RCON;
    if n % nk == 0 {
      var c := Byte(PowerOfX(n / nk - 1));
      TurnedIs(x);
      SubWordsIs(Turned(x));
      RconColumn(n / nk);
      SumOfWords(SubWords(Turned(x)), Join(c, ZERO, ZERO, ZERO));
    } else {
      SubWordsIs(x);
    }
  }

  lemma RconColumn(i: nat)
    requires 1 <= i <= 10
    ensures RconWord(i) == Word(Join(Byte(PowerOfX(i - 1)), ZERO, ZERO, ZERO))
  {
    hide B0, B1, B2, B3, Join, PowerOfX;
    RconIsPower(i);
    Joined(Byte(PowerOfX(i - 1)), ZERO, ZERO, ZERO);
  }

  /** A word of the key schedule follows from two words before it. */
  lemma NextKeyWord(w: Bytes, n: nat, nk: nat, last: bv32, back: bv32)
    requires Expands(w, nk) && nk <= n < |w| / 4
    requires WordAt(w, n - 1) == Word(last) && WordAt(w, n - nk) == Word(back)
    ensures WordAt(w, n) == Word(Sum(TempColumn(last, n, nk), back))
  {
    assert Recurs(w, n, nk);
    hide Word, WordAt, Temp, TempColumn, XorWord, Sum;
    TempIs(last, n, nk);
    SumOfWords(TempColumn(last, n, nk), back);
  }
}
