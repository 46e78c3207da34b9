/**
  The example vectors of FIPS 197 for the model of own/pyaes.py: Appendix C.1 round by
  round, and the words of Appendix A in which the key schedules of longer keys differ.
 */
module AesExamples {

  import opened AesField
  import opened AesTables
  import opened AesRounds
  import opened AesWords
  import opened AesCipher

  datatype Columns = Columns(p: bv32, q: bv32, r: bv32, s: bv32)

  function BlockOf(c: Columns): (b: Bytes)
    ensures IsBlock(b)
  {
    Block(c.p, c.q, c.r, c.s)
  }

  function Substituted(c: Columns): Columns {
    Columns(SubWords(c.p), SubWords(c.q), SubWords(c.r), SubWords(c.s))
  }

  function Added(c: Columns, k: Columns): Columns {
    Columns(Sum(c.p, k.p), Sum(c.q, k.q), Sum(c.r, k.r), Sum(c.s, k.s))
  }

  function Shifted(c: Columns): Columns {
    Columns(Gathered(c.p, c.q, c.r, c.s), Gathered(c.q, c.r, c.s, c.p), Gathered(c.r, c.s, c.p, c.q),
      Gathered(c.s, c.p, c.q, c.r))
  }

  function MixedAll(c: Columns): Columns {
    Columns(Mixed(c.p), Mixed(c.q), Mixed(c.r), Mixed(c.s))
  }

  /** For a key of four words: round key `n` from the one before. */
  function NextKey(k: Columns, n: nat): Columns
    requires 1 <= n <= 10
  {
    var p := Sum(TempColumn(k.s, 4 * n, 4), k.p);
    var q := Sum(p, k.q);
    var r := Sum(q, k.r);
    Columns(p, q, r, Sum(r, k.s))
  }

  // ---------------------------------------------------------------------
  // Appendix C.1
  // ---------------------------------------------------------------------

  /** The round keys of the key 000102...0f. */
  function Key128(n: nat): Columns
    requires n <= 10
  {
    if n == 0 then Columns(0x00010203, 0x04050607, 0x08090a0b, 0x0c0d0e0f)
    else if n == 1 then Columns(0xd6aa74fd, 0xd2af72fa, 0xdaa678f1, 0xd6ab76fe)
    else if n == 2 then Columns(0xb692cf0b, 0x643dbdf1, 0xbe9bc500, 0x6830b3fe)
    else if n == 3 then Columns(0xb6ff744e, 0xd2c2c9bf, 0x6c590cbf, 0x0469bf41)
    else if n == 4 then Columns(0x47f7f7bc, 0x95353e03, 0xf96c32bc, 0xfd058dfd)
    else if n == 5 then Columns(0x3caaa3e8, 0xa99f9deb, 0x50f3af57, 0xadf622aa)
    else if n == 6 then Columns(0x5e390f7d, 0xf7a69296, 0xa7553dc1, 0x0aa31f6b)
    else if n == 7 then Columns(0x14f9701a, 0xe35fe28c, 0x440adf4d, 0x4ea9c026)
    else if n == 8 then Columns(0x47438735, 0xa41c65b9, 0xe016baf4, 0xaebf7ad2)
    else if n == 9 then Columns(0x549932d1, 0xf0855768, 0x1093ed9c, 0xbe2c974e)
    else Columns(0x13111d7f, 0xe3944a17, 0xf307a78b, 0x4d2b30c5)
  }

  /** The states after the rounds, for the block 00112233445566778899aabbccddeeff. */
  function State128(n: nat): Columns
    requires n <= 9
  {
    if n == 0 then Columns(0x00102030, 0x40506070, 0x8090a0b0, 0xc0d0e0f0)
    else if n == 1 then Columns(0x89d810e8, 0x855ace68, 0x2d1843d8, 0xcb128fe4)
    else if n == 2 then Columns(0x4915598f, 0x55e5d7a0, 0xdaca94fa, 0x1f0a63f7)
    else if n == 3 then Columns(0xfa636a28, 0x25b339c9, 0x40668a31, 0x57244d17)
    else if n == 4 then Columns(0x24724023, 0x6966b3fa, 0x6ed27532, 0x88425b6c)
    else if n == 5 then Columns(0xc81677bc, 0x9b7ac93b, 0x25027992, 0xb0261996)
    else if n == 6 then Columns(0xc62fe109, 0xf75eedc3, 0xcc79395d, 0x84f9cf5d)
    else if n == 7 then Columns(0xd1876c0f, 0x79c4300a, 0xb45594ad, 0xd66ff41f)
    else if n == 8 then Columns(0xfde3bad2, 0x05e5d0d7, 0x3547964e, 0xf1fe37f1)
    else Columns(0xbd6e7c3d, 0xf2b5779e, 0x0b61216e, 0x8b10b689)
  }

  /** The same states after substitution. */
  function Substituted128(n: nat): Columns
    requires n <= 9
  {
    if n == 0 then Columns(0x63cab704, 0x0953d051, 0xcd60e0e7, 0xba70e18c)
    else if n == 1 then Columns(0xa761ca9b, 0x97be8b45, 0xd8ad1a61, 0x1fc97369)
    else if n == 2 then Columns(0x3b59cb73, 0xfcd90ee0, 0x5774222d, 0xc067fb68)
    else if n == 3 then Columns(0x2dfb0234, 0x3f6d12dd, 0x09337ec7, 0x5b36e3f0)
    else if n == 4 then Columns(0x36400926, 0xf9336d2d, 0x9fb59d23, 0xc42c3950)
    else if n == 5 then Columns(0xe847f565, 0x14dadde2, 0x3f77b64f, 0xe7f7d490)
    else if n == 6 then Columns(0xb415f801, 0x6858552e, 0x4bb6124c, 0x5f998a4c)
    else if n == 7 then Columns(0x3e175076, 0xb61c0467, 0x8dfc2295, 0xf6a8bfc0)
    else if n == 8 then Columns(0x5411f4b5, 0x6bd9700e, 0x96a0902f, 0xa1bb9aa1)
    else Columns(0x7a9f1027, 0x89d5f50b, 0x2beffd9f, 0x3dca4ea7)
  }

  const PLAINTEXT := Columns(0x00112233, 0x44556677, 0x8899aabb, 0xccddeeff)

  const CIPHERTEXT := Columns(0x69c4e0d8, 0x6a7b0430, 0xd8cdb780, 0x70b4c55a)

  // The substitutions that occur, the rest of each step, and then the steps of the tables.

  lemma KeySub1()
    ensures SubWords(0x0d0e0f0c) == 0xd7ab76fe
  {}

  lemma KeyRow1()
    ensures NextKey(Key128(0), 1) == Key128(1)
  {
    hide SubWords;
    KeySub1();
  }

  lemma KeySub2()
    ensures SubWords(0xab76fed6) == 0x6238bbf6
  {}

  lemma KeyRow2()
    ensures NextKey(Key128(1), 2) == Key128(2)
  {
    hide SubWords;
    KeySub2();
  }

  lemma KeySub3()
    ensures SubWords(0x30b3fe68) == 0x046dbb45
  {}

  lemma KeyRow3()
    ensures NextKey(Key128(2), 3) == Key128(3)
  {
    hide SubWords;
    KeySub3();
  }

  lemma KeySub4()
    ensures SubWords(0x69bf4104) == 0xf90883f2
  {}

  lemma KeyRow4()
    ensures NextKey(Key128(3), 4) == Key128(4)
  {
    hide SubWords;
    KeySub4();
  }

  lemma KeySub5()
    ensures SubWords(0x058dfdfd) == 0x6b5d5454
  {}

  lemma KeyRow5()
    ensures NextKey(Key128(4), 5) == Key128(5)
  {
    hide SubWords;
    KeySub5();
  }

  lemma KeySub6()
    ensures SubWords(0xf622aaad) == 0x4293ac95
  {}

  lemma KeyRow6()
    ensures NextKey(Key128(5), 6) == Key128(6)
  {
    hide SubWords;
    KeySub6();
  }

  lemma KeySub7()
    ensures SubWords(0xa31f6b0a) == 0x0ac07f67
  {}

  lemma KeyRow7()
    ensures NextKey(Key128(6), 7) == Key128(7)
  {
    hide SubWords;
    KeySub7();
  }

  lemma KeySub8()
    ensures SubWords(0xa9c0264e) == 0xd3baf72f
  {}

  lemma KeyRow8()
    ensures NextKey(Key128(7), 8) == Key128(8)
  {
    hide SubWords;
    KeySub8();
  }

  lemma KeySub9()
    ensures SubWords(0xbf7ad2ae) == 0x08dab5e4
  {}

  lemma KeyRow9()
    ensures NextKey(Key128(8), 9) == Key128(9)
  {
    hide SubWords;
    KeySub9();
  }

  lemma KeySub10()
    ensures SubWords(0x2c974ebe) == 0x71882fae
  {}

  lemma KeyRow10()
    ensures NextKey(Key128(9), 10) == Key128(10)
  {
    hide SubWords;
    KeySub10();
  }

  lemma SubLeft0()
    ensures SubWords(0x00102030) == 0x63cab704 && SubWords(0x40506070) == 0x0953d051
  {}

  lemma SubThird0()
    ensures SubWords(0x8090a0b0) == 0xcd60e0e7
  {}

  lemma SubFourth0()
    ensures SubWords(0xc0d0e0f0) == 0xba70e18c
  {}

  lemma SubRight0()
    ensures SubWords(0x8090a0b0) == 0xcd60e0e7 && SubWords(0xc0d0e0f0) == 0xba70e18c
  {
    hide SubWords;
    SubThird0();
    SubFourth0();
  }

  lemma SubLeft1()
    ensures SubWords(0x89d810e8) == 0xa761ca9b && SubWords(0x855ace68) == 0x97be8b45
  {}

  lemma SubRight1()
    ensures SubWords(0x2d1843d8) == 0xd8ad1a61 && SubWords(0xcb128fe4) == 0x1fc97369
  {}

  lemma SubLeft2()
    ensures SubWords(0x4915598f) == 0x3b59cb73 && SubWords(0x55e5d7a0) == 0xfcd90ee0
  {}

  lemma SubRight2()
    ensures SubWords(0xdaca94fa) == 0x5774222d && SubWords(0x1f0a63f7) == 0xc067fb68
  {}

  lemma SubLeft3()
    ensures SubWords(0xfa636a28) == 0x2dfb0234 && SubWords(0x25b339c9) == 0x3f6d12dd
  {}

  lemma SubRight3()
    ensures SubWords(0x40668a31) == 0x09337ec7 && SubWords(0x57244d17) == 0x5b36e3f0
  {}

  lemma SubLeft4()
    ensures SubWords(0x24724023) == 0x36400926 && SubWords(0x6966b3fa) == 0xf9336d2d
  {}

  lemma SubRight4()
    ensures SubWords(0x6ed27532) == 0x9fb59d23 && SubWords(0x88425b6c) == 0xc42c3950
  {}

  lemma SubLeft5()
    ensures SubWords(0xc81677bc) == 0xe847f565 && SubWords(0x9b7ac93b) == 0x14dadde2
  {}

  lemma SubRight5()
    ensures SubWords(0x25027992) == 0x3f77b64f && SubWords(0xb0261996) == 0xe7f7d490
  {}

  lemma SubLeft6()
    ensures SubWords(0xc62fe109) == 0xb415f801 && SubWords(0xf75eedc3) == 0x6858552e
  {}

  lemma SubRight6()
    ensures SubWords(0xcc79395d) == 0x4bb6124c && SubWords(0x84f9cf5d) == 0x5f998a4c
  {}

  lemma SubLeft7()
    ensures SubWords(0xd1876c0f) == 0x3e175076 && SubWords(0x79c4300a) == 0xb61c0467
  {}

  lemma SubRight7()
    ensures SubWords(0xb45594ad) == 0x8dfc2295 && SubWords(0xd66ff41f) == 0xf6a8bfc0
  {}

  lemma SubLeft8()
    ensures SubWords(0xfde3bad2) == 0x5411f4b5 && SubWords(0x05e5d0d7) == 0x6bd9700e
  {}

  lemma SubRight8()
    ensures SubWords(0x3547964e) == 0x96a0902f && SubWords(0xf1fe37f1) == 0xa1bb9aa1
  {}

  lemma SubLeft9()
    ensures SubWords(0xbd6e7c3d) == 0x7a9f1027 && SubWords(0xf2b5779e) == 0x89d5f50b
  {}

  lemma SubRight9()
    ensures SubWords(0x0b61216e) == 0x2beffd9f && SubWords(0x8b10b689) == 0x3dca4ea7
  {}

  lemma Mix1()
    ensures Added(MixedAll(Shifted(Columns(0x63cab704, 0x0953d051, 0xcd60e0e7, 0xba70e18c))), Key128(1)) == State128(1)
  {}

  lemma Mix2()
    ensures Added(MixedAll(Shifted(Columns(0xa761ca9b, 0x97be8b45, 0xd8ad1a61, 0x1fc97369))), Key128(2)) == State128(2)
  {}

  lemma Mix3()
    ensures Added(MixedAll(Shifted(Columns(0x3b59cb73, 0xfcd90ee0, 0x5774222d, 0xc067fb68))), Key128(3)) == State128(3)
  {}

  lemma Mix4()
    ensures Added(MixedAll(Shifted(Columns(0x2dfb0234, 0x3f6d12dd, 0x09337ec7, 0x5b36e3f0))), Key128(4)) == State128(4)
  {}

  lemma Mix5()
    ensures Added(MixedAll(Shifted(Columns(0x36400926, 0xf9336d2d, 0x9fb59d23, 0xc42c3950))), Key128(5)) == State128(5)
  {}

  lemma Mix6()
    ensures Added(MixedAll(Shifted(Columns(0xe847f565, 0x14dadde2, 0x3f77b64f, 0xe7f7d490))), Key128(6)) == State128(6)
  {}

  lemma Mix7()
    ensures Added(MixedAll(Shifted(Columns(0xb415f801, 0x6858552e, 0x4bb6124c, 0x5f998a4c))), Key128(7)) == State128(7)
  {}

  lemma Mix8()
    ensures Added(MixedAll(Shifted(Columns(0x3e175076, 0xb61c0467, 0x8dfc2295, 0xf6a8bfc0))), Key128(8)) == State128(8)
  {}

  lemma Mix9()
    ensures Added(MixedAll(Shifted(Columns(0x5411f4b5, 0x6bd9700e, 0x96a0902f, 0xa1bb9aa1))), Key128(9)) == State128(9)
  {}

  lemma KeyRow(n: nat)
    requires 1 <= n <= 10
    ensures NextKey(Key128(n - 1), n) == Key128(n)
  {
    hide *;
    if n == 1 {
      KeyRow1();
    } else if n == 2 {
      KeyRow2();
    } else if n == 3 {
      KeyRow3();
    } else if n == 4 {
      KeyRow4();
    } else if n == 5 {
      KeyRow5();
    } else if n == 6 {
      KeyRow6();
    } else if n == 7 {
      KeyRow7();
    } else if n == 8 {
      KeyRow8();
    } else if n == 9 {
      KeyRow9();
    } else {
      KeyRow10();
    }
  }

  lemma SubRow(n: nat)
    requires n <= 9
    ensures Substituted(State128(n)) == Substituted128(n)
  {
    hide SubWords;
    if n == 0 {
      SubLeft0();
      SubRight0();
    } else if n == 1 {
      SubLeft1();
      SubRight1();
    } else if n == 2 {
      SubLeft2();
      SubRight2();
    } else if n == 3 {
      SubLeft3();
      SubRight3();
    } else if n == 4 {
      SubLeft4();
      SubRight4();
    } else if n == 5 {
      SubLeft5();
      SubRight5();
    } else if n == 6 {
      SubLeft6();
      SubRight6();
    } else if n == 7 {
      SubLeft7();
      SubRight7();
    } else if n == 8 {
      SubLeft8();
      SubRight8();
    } else {
      SubLeft9();
      SubRight9();
    }
  }

  lemma MixRow(n: nat)
    requires 1 <= n <= 9
    ensures Added(MixedAll(Shifted(Substituted128(n - 1))), Key128(n)) == State128(n)
  {
    hide Added, MixedAll, Shifted, Key128, State128;
    if n == 1 {
      Mix1();
    } else if n == 2 {
      Mix2();
    } else if n == 3 {
      Mix3();
    } else if n == 4 {
      Mix4();
    } else if n == 5 {
      Mix5();
    } else if n == 6 {
      Mix6();
    } else if n == 7 {
      Mix7();
    } else if n == 8 {
      Mix8();
    } else {
      Mix9();
    }
  }

  lemma Mix10()
    ensures Added(Shifted(Columns(0x7a9f1027, 0x89d5f50b, 0x2beffd9f, 0x3dca4ea7)), Key128(10)) == CIPHERTEXT
  {}

  lemma LastRow()
    ensures Added(Shifted(Substituted128(9)), Key128(10)) == CIPHERTEXT
  {
    hide Added, Shifted, Key128, CIPHERTEXT;
    Mix10();
  }

  lemma FirstRow()
    ensures Added(PLAINTEXT, Key128(0)) == State128(0)
  {}

  lemma ShiftedIs(c: Columns)
    ensures Scramble(BlockOf(c)) == BlockOf(Shifted(Substituted(c)))
  {
    hide Block, Scramble, Gathered, Scrambled;
    ScrambledColumns(c.p, c.q, c.r, c.s);
    ScrambledIsGathered(c.p, c.q, c.r, c.s);
    ScrambledIsGathered(c.q, c.r, c.s, c.p);
    ScrambledIsGathered(c.r, c.s, c.p, c.q);
    ScrambledIsGathered(c.s, c.p, c.q, c.r);
  }

  lemma AddedIs(c: Columns, k: Columns)
    ensures XorBlock(BlockOf(c), BlockOf(k)) == BlockOf(Added(c, k))
  {
    hide Block, XorBlock, Sum;
    SumOfBlocks(c.p, c.q, c.r, c.s, k.p, k.q, k.r, k.s);
  }

  lemma MixedIs(c: Columns)
    ensures MixColumns(BlockOf(c)) == BlockOf(MixedAll(c))
  {
    hide Block, MixColumns, Mixed;
    MixedColumns(c.p, c.q, c.r, c.s);
  }

  lemma SplitInFour(w: Bytes, i: nat)
    requires i + 16 <= |w|
    ensures w[i..i + 16] == w[i..i + 4] + w[i + 4..i + 8] + w[i + 8..i + 12] + w[i + 12..i + 16]
  {}

  lemma WordsOfRoundKey(w: Bytes, n: nat, p: bv32, q: bv32, r: bv32, s: bv32)
    requires 16 * (n + 1) <= |w|
    requires WordAt(w, 4 * n) == Word(p) && WordAt(w, 4 * n + 1) == Word(q)
    requires WordAt(w, 4 * n + 2) == Word(r) && WordAt(w, 4 * n + 3) == Word(s)
    ensures RoundKey(w, n) == Block(p, q, r, s)
  {
    hide Word;
    SplitInFour(w, 16 * n);
  }

  /** The words of round key `n`. */
  predicate HasWords(w: Bytes, n: nat, k: Columns)
    requires 16 * (n + 1) <= |w|
  {
    && WordAt(w, 4 * n) == Word(k.p) && WordAt(w, 4 * n + 1) == Word(k.q)
    && WordAt(w, 4 * n + 2) == Word(k.r) && WordAt(w, 4 * n + 3) == Word(k.s)
  }

  lemma PlainColumns(n: nat, d: Columns)
    requires 1 <= n <= 10
    ensures TempColumn(d.p, 4 * n + 1, 4) == d.p && TempColumn(d.q, 4 * n + 2, 4) == d.q
    ensures TempColumn(d.r, 4 * n + 3, 4) == d.r
  {}

  lemma NextRoundKey(w: Bytes, n: nat, k: Columns)
    requires Expands(w, 4) && 1 <= n <= 10 && 16 * (n + 1) <= |w| && HasWords(w, n - 1, k)
    ensures HasWords(w, n, NextKey(k, n))
  {
    hide Expands, WordAt, Word, Sum, TempColumn;
    var d := NextKey(k, n);
    PlainColumns(n, d);
    NextKeyWord(w, 4 * n, 4, k.s, k.p);
    NextKeyWord(w, 4 * n + 1, 4, d.p, k.q);
    NextKeyWord(w, 4 * n + 2, 4, d.q, k.r);
    NextKeyWord(w, 4 * n + 3, 4, d.r, k.s);
  }

  lemma FirstWords(w: Bytes, k: Columns)
    requires |w| >= 16 && w[..16] == BlockOf(k)
    ensures HasWords(w, 0, k)
  {
    hide Word;
    assert w[0..4] == BlockOf(k)[0..4] && w[4..8] == BlockOf(k)[4..8];
    assert w[8..12] == BlockOf(k)[8..12] && w[12..16] == BlockOf(k)[12..16];
  }

  /** An expansion of the example key starts with the round keys of the table. */
  lemma {:induction false} RoundKeys(w: Bytes, n: nat)
    requires Expands(w, 4) && w[..16] == BlockOf(Key128(0)) && n <= 10 && 16 * (n + 1) <= |w|
    ensures HasWords(w, n, Key128(n))
  {
    hide Expands, HasWords, NextKey, Key128, Block;
    if n == 0 {
      FirstWords(w, Key128(0));
    } else {
      RoundKeys(w, n - 1);
      NextRoundKey(w, n, Key128(n - 1));
      KeyRow(n);
    }
  }

  lemma RoundKeyIs(w: Bytes, n: nat)
    requires Expands(w, 4) && w[..16] == BlockOf(Key128(0)) && n <= 10 && 16 * (n + 1) <= |w|
    ensures RoundKey(w, n) == BlockOf(Key128(n))
  {
    RoundKeys(w, n);
    hide Expands, Key128, Block, WordAt, RoundKey;
    var k := Key128(n);
    WordsOfRoundKey(w, n, k.p, k.q, k.r, k.s);
  }

  /** The rounds go through the states of the table. */
  lemma {:induction false} StatesAre(w: Bytes, n: nat)
    requires Expands(w, 4) && w[..16] == BlockOf(Key128(0)) && n <= 9 && 16 * (n + 1) <= |w|
    ensures AfterRounds(BlockOf(PLAINTEXT), w, n) == BlockOf(State128(n))
  {
    hide Expands, Key128, State128, Substituted128, Added, MixedAll, Shifted, Substituted, BlockOf, PLAINTEXT, RoundKey,
      Scramble, MixColumns, XorBlock;
    RoundKeyIs(w, n);
    if n == 0 {
      AddedIs(PLAINTEXT, Key128(0));
      FirstRow();
    } else {
      StatesAre(w, n - 1);
      ShiftedIs(State128(n - 1));
      SubRow(n - 1);
      MixedIs(Shifted(Substituted128(n - 1)));
      AddedIs(MixedAll(Shifted(Substituted128(n - 1))), Key128(n));
      MixRow(n);
    }
  }

  /** Under the expansion of the example key, the example block becomes the example ciphertext. */
  lemma ExampleC1(w: Bytes)
    requires Expands(w, 4) && |w| == 176 && w[..16] == BlockOf(Key128(0))
    ensures Encrypt(BlockOf(PLAINTEXT), w) == BlockOf(CIPHERTEXT)
  {
    hide Expands, Key128, State128, Substituted128, Added, Shifted, Substituted, BlockOf, RoundKey, AfterRounds,
      PLAINTEXT,
      CIPHERTEXT, Scramble;
    StatesAre(w, 9);
    ShiftedIs(State128(9));
    SubRow(9);
    RoundKeyIs(w, 10);
    AddedIs(Shifted(Substituted128(9)), Key128(10));
    LastRow();
  }

  /** So it is for every object that the example key was set in. */
  lemma ExampleC1Keyed(aes: AES)
    requires aes.Keyed() && aes.key == BlockOf(Key128(0))
    ensures aes.rounds == 10 && Encrypt(BlockOf(PLAINTEXT), aes.exkey) == BlockOf(CIPHERTEXT)
  {
    hide Expands, BlockOf, Encrypt, PLAINTEXT, CIPHERTEXT;
    ExampleC1(aes.exkey);
  }

  // ---------------------------------------------------------------------
  // Appendices A.2 and A.3
  // ---------------------------------------------------------------------

  predicate StartsWith(w: Bytes, k: seq<bv32>) {
    && |w| >= 4 * |k|
    && forall i: nat :: i < |k| ==> WordAt(w, i) == Word(k[i])
  }

  lemma Continues(w: Bytes, k: seq<bv32>, nk: nat, t: bv32)
    requires Expands(w, nk) && nk <= |k| < |w| / 4 && StartsWith(w, k)
    requires t == Sum(TempColumn(k[|k| - 1], |k|, nk), k[|k| - nk])
    ensures StartsWith(w, k + [t])
  {
    NextKeyWord(w, |k|, nk, k[|k| - 1], k[|k| - nk]);
    hide Expands, WordAt, Word, TempColumn, Sum;
  }

  /** The key of Appendix A.2. */
  const KEY_A2: seq<bv32> := [0x8e73b0f7, 0xda0e6452, 0xc810f32b, 0x809079e5, 0x62f8ead2, 0x522c6b7b]

  lemma WordsA2()
    ensures SubWords(0x2c6b7b52) == 0x717f2100
  {}

  lemma ExampleA2(w: Bytes)
    requires Expands(w, 6) && |w| == 208 && StartsWith(w, KEY_A2)
    ensures StartsWith(w, KEY_A2 + [0xfe0c91f7, 0x2402f5a5])
  {
    hide Expands, StartsWith, SubWords;
    WordsA2();
    Continues(w, KEY_A2, 6, 0xfe0c91f7);
    Continues(w, KEY_A2 + [0xfe0c91f7], 6, 0x2402f5a5);
    assert KEY_A2 + [0xfe0c91f7] + [0x2402f5a5] == KEY_A2 + [0xfe0c91f7, 0x2402f5a5];
  }

  /** The key of Appendix A.3. */
  const KEY_A3: seq<bv32> :=
    [0x603deb10, 0x15ca71be, 0x2b73aef0, 0x857d7781, 0x1f352c07, 0x3b6108d7, 0x2d9810a3, 0x0914dff4]

  lemma WordsA3()
    ensures SubWords(0x14dff409) == 0xfa9ebf01 && SubWords(0x2067fcde) == 0xb785b01d
  {}

  const MORE_A3: seq<bv32> := KEY_A3 + [0x9ba35411, 0x8e6925af, 0xa51a8b5f, 0x2067fcde]

  lemma FourWordsA3(w: Bytes)
    requires Expands(w, 8) && |w| == 240 && StartsWith(w, KEY_A3)
    ensures StartsWith(w, MORE_A3)
  {
    hide Expands, StartsWith, SubWords;
    WordsA3();
    Continues(w, KEY_A3, 8, 0x9ba35411);
    Continues(w, KEY_A3 + [0x9ba35411], 8, 0x8e6925af);
    Continues(w, KEY_A3 + [0x9ba35411] + [0x8e6925af], 8, 0xa51a8b5f);
    Continues(w, KEY_A3 + [0x9ba35411] + [0x8e6925af] + [0xa51a8b5f], 8, 0x2067fcde);
    assert KEY_A3 + [0x9ba35411] + [0x8e6925af] + [0xa51a8b5f] + [0x2067fcde] == MORE_A3;
  }

  /** The fourth word of a cycle of eight is substituted without being turned. */
  lemma ExampleA3(w: Bytes)
    requires Expands(w, 8) && |w| == 240 && StartsWith(w, KEY_A3)
    ensures StartsWith(w, MORE_A3 + [0xa8b09c1a, 0x93d194cd])
  {
    hide Expands, StartsWith, SubWords;
    FourWordsA3(w);
    WordsA3();
    Continues(w, MORE_A3, 8, 0xa8b09c1a);
    Continues(w, MORE_A3 + [0xa8b09c1a], 8, 0x93d194cd);
    assert MORE_A3 + [0xa8b09c1a] + [0x93d194cd] == MORE_A3 + [0xa8b09c1a, 0x93d194cd];
  }
}
