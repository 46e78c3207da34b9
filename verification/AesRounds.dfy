/**
  The AES cipher of own/pyaes.py on values: the round steps of section 5 of FIPS 197
  as functions on blocks, and the proof that decryption undoes encryption.
 */
module AesRounds {

  import opened AesField
  import opened AesTables

  type Bytes = seq<Byte>

  predicate IsBlock(b: Bytes) {
    |b| == 16
  }

  function SubBytes(b: Bytes): (r: Bytes)
    ensures |r| == |b|
  {
    seq(|b|, i requires 0 <= i < |b| => Sub(b[i]))
  }

  function InvSubBytes(b: Bytes): (r: Bytes)
    ensures |r| == |b|
  {
    seq(|b|, i requires 0 <= i < |b| => InvSub(b[i]))
  }

  /** Where ShiftRows takes byte `i` from: byte i % 4 + 4 * c of the state is in row i % 4, column c. */
  function ShiftFrom(i: nat): (j: nat)
    requires i < 16
    ensures j < 16
  {
    (i + 4 * (i % 4)) % 16
  }

  function UnshiftFrom(i: nat): (j: nat)
    requires i < 16
    ensures j < 16
  {
    (i - 4 * (i % 4)) % 16
  }

  /** Row r of the state, bytes r, r+4, r+8 and r+12, turns left by r places. */
  function ShiftRows(b: Bytes): (r: Bytes)
    requires IsBlock(b)
    ensures IsBlock(r)
  {
    seq(16, i requires 0 <= i < 16 => b[ShiftFrom(i)])
  }

  function InvShiftRows(b: Bytes): (r: Bytes)
    requires IsBlock(b)
    ensures IsBlock(r)
  {
    seq(16, i requires 0 <= i < 16 => b[UnshiftFrom(i)])
  }

  /** Byte `i + k` of the column of byte `i`, counted round the column. */
  function InColumn(i: nat, k: nat): (j: nat)
    requires i < 16
    ensures j < 16
  {
    i / 4 * 4 + (i + k) % 4
  }

  function MixColumns(b: Bytes): (r: Bytes)
    requires IsBlock(b)
    ensures IsBlock(r)
  {
    seq(16, i requires 0 <= i < 16 =>
      MixByte(b[InColumn(i, 0)], b[InColumn(i, 1)], b[InColumn(i, 2)], b[InColumn(i, 3)]))
  }

  function InvMixColumns(b: Bytes): (r: Bytes)
    requires IsBlock(b)
    ensures IsBlock(r)
  {
    seq(16, i requires 0 <= i < 16 =>
      UnmixByte(b[InColumn(i, 0)], b[InColumn(i, 1)], b[InColumn(i, 2)], b[InColumn(i, 3)]))
  }

  /** Bytewise sum of a block with the first sixteen bytes of `k`. */
  function XorBlock(b: Bytes, k: Bytes): (r: Bytes)
    requires IsBlock(b) && |k| >= 16
    ensures IsBlock(r)
  {
    seq(16, i requires 0 <= i < 16 => Xor(b[i], k[i]))
  }

  // Each step has an inverse.

  lemma SubBytesReturns(b: Bytes)
    ensures InvSubBytes(SubBytes(b)) == b
  {
    hide Sub, InvSub;
    forall i | 0 <= i < |b| ensures InvSubBytes(SubBytes(b))[i] == b[i] {
      SubReturns(b[i]);
    }
  }

  lemma ShiftAndUnshift(i: nat)
    requires i < 16
    ensures ShiftFrom(UnshiftFrom(i)) == i
  {
    var r := i % 4;
    var j := UnshiftFrom(i);
    assert j == if i < 4 * r then i - 4 * r + 16 else i - 4 * r;
    assert j % 4 == r;
  }

  lemma ShiftRowsReturns(b: Bytes)
    requires IsBlock(b)
    ensures InvShiftRows(ShiftRows(b)) == b
  {
    hide ShiftFrom, UnshiftFrom;
    forall i: nat | i < 16 ensures InvShiftRows(ShiftRows(b))[i] == b[i] {
      ShiftAndUnshift(i);
    }
  }

  lemma ColumnOfColumn(i: nat, k: nat, m: nat)
    requires i < 16
    ensures InColumn(InColumn(i, k), m) == InColumn(i, k + m)
  {
    assert InColumn(i, k) / 4 == i / 4 && InColumn(i, k) % 4 == (i + k) % 4;
    assert (InColumn(i, k) + m) % 4 == (i + k + m) % 4;
  }

  lemma ColumnTurns(i: nat, k: nat)
    requires i < 16
    ensures InColumn(i, k + 4) == InColumn(i, k) && InColumn(i, 0) == i
  {
    assert (i + k + 4) % 4 == (i + k) % 4;
  }

  lemma MixedAt(b: Bytes, i: nat, k: nat)
    requires IsBlock(b) && i < 16
    ensures MixColumns(b)[InColumn(i, k)]
      == MixByte(b[InColumn(i, k)], b[InColumn(i, k + 1)], b[InColumn(i, k + 2)], b[InColumn(i, k + 3)])
  {
    ColumnOfColumn(i, k, 0);
    ColumnOfColumn(i, k, 1);
    ColumnOfColumn(i, k, 2);
    ColumnOfColumn(i, k, 3);
    hide MixByte, InColumn;
  }

  lemma UnmixedAt(b: Bytes, i: nat)
    requires IsBlock(b) && i < 16
    ensures InvMixColumns(b)[i] == UnmixByte(b[InColumn(i, 0)], b[InColumn(i, 1)], b[InColumn(i, 2)], b[InColumn(i, 3)])
  {
    hide UnmixByte, InColumn;
  }

  lemma MixedAtAll(b: Bytes, i: nat)
    requires IsBlock(b) && i < 16
    ensures var b0, b1, b2, b3 := b[i], b[InColumn(i, 1)], b[InColumn(i, 2)], b[InColumn(i, 3)];
      && MixColumns(b)[InColumn(i, 0)] == MixByte(b0, b1, b2, b3)
      && MixColumns(b)[InColumn(i, 1)] == MixByte(b1, b2, b3, b0)
      && MixColumns(b)[InColumn(i, 2)] == MixByte(b2, b3, b0, b1)
      && MixColumns(b)[InColumn(i, 3)] == MixByte(b3, b0, b1, b2)
  {
    hide MixByte, InColumn, MixColumns;
    MixedAt(b, i, 0);
    MixedAt(b, i, 1);
    MixedAt(b, i, 2);
    MixedAt(b, i, 3);
    ColumnTurns(i, 0);
    ColumnTurns(i, 1);
    ColumnTurns(i, 2);
  }

  lemma MixColumnsReturnsAt(b: Bytes, i: nat)
    requires IsBlock(b) && i < 16
    ensures InvMixColumns(MixColumns(b))[i] == b[i]
  {
    var b0, b1, b2, b3 := b[i], b[InColumn(i, 1)], b[InColumn(i, 2)], b[InColumn(i, 3)];
    assert MixUnmix(b0, b1, b2, b3)
      == UnmixByte(MixByte(b0, b1, b2, b3), MixByte(b1, b2, b3, b0), MixByte(b2, b3, b0, b1),
        MixByte(b3, b0, b1, b2)) by {
      hide MixByte, UnmixByte;
    }
    hide *;
    MixUnmixReturns(b0, b1, b2, b3);
    UnmixedAt(MixColumns(b), i);
    MixedAtAll(b, i);
  }

  lemma MixColumnsReturns(b: Bytes)
    requires IsBlock(b)
    ensures InvMixColumns(MixColumns(b)) == b
  {
    var r := InvMixColumns(MixColumns(b));
    forall i: nat | i < 16 ensures r[i] == b[i] {
      MixColumnsReturnsAt(b, i);
    }
  }

  lemma XorBlockReturns(b: Bytes, k: Bytes)
    requires IsBlock(b) && |k| >= 16
    ensures XorBlock(XorBlock(b, k), k) == b
  {
    hide Xor;
    forall i | 0 <= i < 16 ensures XorBlock(XorBlock(b, k), k)[i] == b[i] {
      XorSelf(b[i], k[i]);
    }
  }

  // ---------------------------------------------------------------------
  // Rounds
  // ---------------------------------------------------------------------

  /** An expanded key: sixteen bytes for every round and one block more. */
  predicate IsKey(w: Bytes) {
    |w| % 16 == 0 && |w| >= 32
  }

  function Rounds(w: Bytes): (n: nat)
    requires IsKey(w)
    ensures |w| == 16 * (n + 1) && n >= 1
  {
    |w| / 16 - 1
  }

  function RoundKey(w: Bytes, n: nat): (k: Bytes)
    requires 16 * (n + 1) <= |w|
    ensures IsBlock(k)
  {
    w[16 * n..16 * (n + 1)]
  }

  function Scramble(b: Bytes): (r: Bytes)
    requires IsBlock(b)
    ensures IsBlock(r)
  {
    ShiftRows(SubBytes(b))
  }

  function Unscramble(b: Bytes): (r: Bytes)
    requires IsBlock(b)
    ensures IsBlock(r)
  {
    InvSubBytes(InvShiftRows(b))
  }

  /** A block after its first `n` full rounds. */
  function AfterRounds(b: Bytes, w: Bytes, n: nat): (r: Bytes)
    requires IsBlock(b) && 16 * (n + 1) <= |w|
    ensures IsBlock(r)
    decreases n
  {
    if n == 0 then XorBlock(b, RoundKey(w, 0))
    else XorBlock(MixColumns(Scramble(AfterRounds(b, w, n - 1))), RoundKey(w, n))
  }

  /** Section 5.1 of FIPS 197. */
  function Encrypt(b: Bytes, w: Bytes): (r: Bytes)
    requires IsBlock(b) && IsKey(w)
    ensures IsBlock(r)
  {
    XorBlock(Scramble(AfterRounds(b, w, Rounds(w) - 1)), RoundKey(w, Rounds(w)))
  }

  /** What the rounds n, ..., 1 of decryption and its last step make of a block. */
  function UndoRounds(b: Bytes, w: Bytes, n: nat): (r: Bytes)
    requires IsBlock(b) && 16 * (n + 1) <= |w|
    ensures IsBlock(r)
    decreases n
  {
    if n == 0 then XorBlock(Unscramble(b), RoundKey(w, 0))
    else UndoRounds(InvMixColumns(XorBlock(Unscramble(b), RoundKey(w, n))), w, n - 1)
  }

  /** Section 5.3 of FIPS 197. */
  function Decrypt(b: Bytes, w: Bytes): (r: Bytes)
    requires IsBlock(b) && IsKey(w)
    ensures IsBlock(r)
  {
    UndoRounds(XorBlock(b, RoundKey(w, Rounds(w))), w, Rounds(w) - 1)
  }

  lemma ScrambleReturns(b: Bytes)
    requires IsBlock(b)
    ensures Unscramble(Scramble(b)) == b
  {
    hide SubBytes, InvSubBytes, ShiftRows, InvShiftRows;
    ShiftRowsReturns(SubBytes(b));
    SubBytesReturns(b);
  }

  lemma {:induction false} RoundsReturn(b: Bytes, w: Bytes, n: nat)
    requires IsBlock(b) && 16 * (n + 1) <= |w|
    ensures UndoRounds(Scramble(AfterRounds(b, w, n)), w, n) == b
  {
    hide Scramble, Unscramble, XorBlock, MixColumns, InvMixColumns, RoundKey;
    ScrambleReturns(AfterRounds(b, w, n));
    var k := RoundKey(w, n);
    if n == 0 {
      XorBlockReturns(b, k);
    } else {
      var s := Scramble(AfterRounds(b, w, n - 1));
      XorBlockReturns(MixColumns(s), k);
      MixColumnsReturns(s);
      RoundsReturn(b, w, n - 1);
    }
  }

  /** Under every expanded key, decrypting an encrypted block returns it. */
  lemma DecryptReturns(b: Bytes, w: Bytes)
    requires IsBlock(b) && IsKey(w)
    ensures Decrypt(Encrypt(b, w), w) == b
  {
    hide Scramble, Unscramble, XorBlock, AfterRounds, UndoRounds, RoundKey;
    var n := Rounds(w);
    XorBlockReturns(Scramble(AfterRounds(b, w, n - 1)), RoundKey(w, n));
    RoundsReturn(b, w, n - 1);
  }

  // ---------------------------------------------------------------------
  // Key schedule, section 5.2 of FIPS 197
  // ---------------------------------------------------------------------

  predicate IsWord(t: Bytes) {
    |t| == 4
  }

  function WordAt(w: Bytes, n: nat): (t: Bytes)
    requires 4 * (n + 1) <= |w|
    ensures IsWord(t)
  {
    w[4 * n..4 * (n + 1)]
  }

  function RotWord(t: Bytes): (r: Bytes)
    requires IsWord(t)
    ensures IsWord(r)
  {
    t[1..4] + t[0..1]
  }

  function XorWord(s: Bytes, t: Bytes): (r: Bytes)
    requires IsWord(s) && IsWord(t)
    ensures IsWord(r)
  {
    seq(4, i requires 0 <= i < 4 => Xor(s[i], t[i]))
  }

  function RconWord(i: nat): (t: Bytes)
    requires i <= 10
    ensures IsWord(t)
  {
    [Rcon(i), ZERO, ZERO, ZERO]
  }

  predicate KeyWords(nk: nat) {
    nk == 4 || nk == 6 || nk == 8
  }

  /** The word that is added to word `n - nk` to make word `n`. */
  function Temp(last: Bytes, n: nat, nk: nat): (t: Bytes)
    requires KeyWords(nk) && IsWord(last) && n / nk <= 10
    ensures IsWord(t)
  {
    if n % nk == 0 then XorWord(SubBytes(RotWord(last)), RconWord(n / nk))
    else if nk > 6 && n % nk == 4 then SubBytes(last)
    else last
  }

  predicate Recurs(w: Bytes, n: nat, nk: nat)
    requires KeyWords(nk) && nk <= n && 4 * (n + 1) <= |w| && n / nk <= 10
  {
    WordAt(w, n) == XorWord(Temp(WordAt(w, n - 1), n, nk), WordAt(w, n - nk))
  }

  /** `w` starts the key expansion of its first `nk` words. */
  predicate Expands(w: Bytes, nk: nat) {
    && KeyWords(nk)
    && |w| % 4 == 0
    && 4 * nk <= |w| <= 44 * nk
    && forall n: nat :: nk <= n < |w| / 4 ==> Recurs(w, n, nk)
  }

  lemma ExpandsLength(w: Bytes, nk: nat)
    requires Expands(w, nk)
    ensures KeyWords(nk) && |w| % 4 == 0 && 4 * nk <= |w| <= 44 * nk
  {}

  lemma WordOfFirst(w: Bytes, m: nat, n: nat)
    requires 4 * (n + 1) <= m <= |w|
    ensures WordAt(w[..m], n) == WordAt(w, n)
  {}

  lemma {:induction false} WordsAgree(v: Bytes, w: Bytes, nk: nat, n: nat)
    requires Expands(v, nk) && Expands(w, nk) && v[..4 * nk] == w[..4 * nk]
    requires 4 * (n + 1) <= |v| && 4 * (n + 1) <= |w|
    ensures WordAt(v, n) == WordAt(w, n)
    decreases n
  {
    if n < nk {
      WordOfFirst(v, 4 * nk, n);
      WordOfFirst(w, 4 * nk, n);
    } else {
      assert Recurs(v, n, nk) && Recurs(w, n, nk);
      WordsAgree(v, w, nk, n - 1);
      WordsAgree(v, w, nk, n - nk);
      hide WordAt, Temp, XorWord;
    }
  }

  lemma ByteOfWord(w: Bytes, i: nat)
    requires |w| % 4 == 0 && i < |w|
    ensures 4 * (i / 4 + 1) <= |w| && WordAt(w, i / 4)[i % 4] == w[i]
  {
    assert i == 4 * (i / 4) + i % 4;
  }

  /** The recurrence and the key leave no freedom. */
  lemma ExpansionIsUnique(v: Bytes, w: Bytes, nk: nat)
    requires Expands(v, nk) && Expands(w, nk) && v[..4 * nk] == w[..4 * nk] && |v| == |w|
    ensures v == w
  {
    hide WordAt, Temp;
    forall i | 0 <= i < |v| ensures v[i] == w[i] {
      WordsAgree(v, w, nk, i / 4);
      ByteOfWord(v, i);
      ByteOfWord(w, i);
    }
  }

  lemma WordOfPrefix(w: Bytes, t: Bytes, n: nat)
    requires 4 * (n + 1) <= |w|
    ensures WordAt(w + t, n) == WordAt(w, n)
  {}

  lemma WordOfEnd(w: Bytes, t: Bytes)
    requires |w| % 4 == 0 && IsWord(t)
    ensures WordAt(w + t, |w| / 4) == t
  {}

  /** Appending the next word keeps the recurrence. */
  lemma ExpandsMore(w: Bytes, t: Bytes, nk: nat)
    requires Expands(w, nk) && |w| + 4 <= 44 * nk
    requires t == XorWord(Temp(WordAt(w, |w| / 4 - 1), |w| / 4, nk), WordAt(w, |w| / 4 - nk))
    ensures Expands(w + t, nk) && WordAt(w + t, |w| / 4) == t
  {
    hide XorWord, Temp, WordAt;
    var v := w + t;
    var m := |w| / 4;
    WordOfEnd(w, t);
    WordOfPrefix(w, t, m - 1);
    WordOfPrefix(w, t, m - nk);
    forall n: nat | nk <= n < |v| / 4 ensures Recurs(v, n, nk) {
      if n < m {
        assert Recurs(w, n, nk);
        WordOfPrefix(w, t, n);
        WordOfPrefix(w, t, n - 1);
        WordOfPrefix(w, t, n - nk);
      }
    }
  }
}
