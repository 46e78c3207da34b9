/**
  The AES class of own/pyaes.py, which transforms a block array in place and extends its
  expanded key step by step. Each method is proved against the functions of AesRounds.
 */
module AesCipher {

  import opened AesField
  import opened AesTables
  import opened AesRounds

  method AddRoundKey(block: array<Byte>, exkey: Bytes, round: nat)
    requires block.Length == 16 && 16 * (round + 1) <= |exkey|
    modifies block
    ensures block[..] == XorBlock(old(block[..]), RoundKey(exkey, round))
  {
    hide Xor;
    var offset := round * 16;
    for i := 0 to 16
      invariant forall k :: 0 <= k < i ==> block[k] == Xor(old(block[k]), exkey[offset + k])
      invariant forall k :: i <= k < 16 ==> block[k] == old(block[k])
    {
      block[i] := Xor(block[i], exkey[offset + i]);
    }
  }

  method SubBytesInPlace(block: array<Byte>)
    requires block.Length == 16
    modifies block
    ensures block[..] == SubBytes(old(block[..]))
  {
    hide Sub;
    for i := 0 to 16
      invariant forall k :: 0 <= k < i ==> block[k] == Sub(old(block[k]))
      invariant forall k :: i <= k < 16 ==> block[k] == old(block[k])
    {
      block[i] := Sub(block[i]);
    }
  }

  method InvSubBytesInPlace(block: array<Byte>)
    requires block.Length == 16
    modifies block
    ensures block[..] == InvSubBytes(old(block[..]))
  {
    hide InvSub;
    for i := 0 to 16
      invariant forall k :: 0 <= k < i ==> block[k] == InvSub(old(block[k]))
      invariant forall k :: i <= k < 16 ==> block[k] == old(block[k])
    {
      block[i] := InvSub(block[i]);
    }
  }

  lemma ShiftTable()
    ensures ShiftFrom(0) == 0 && ShiftFrom(4) == 4 && ShiftFrom(8) == 8 && ShiftFrom(12) == 12
    ensures ShiftFrom(1) == 5 && ShiftFrom(5) == 9 && ShiftFrom(9) == 13 && ShiftFrom(13) == 1
    ensures ShiftFrom(2) == 10 && ShiftFrom(6) == 14 && ShiftFrom(10) == 2 && ShiftFrom(14) == 6
    ensures ShiftFrom(3) == 15 && ShiftFrom(7) == 3 && ShiftFrom(11) == 7 && ShiftFrom(15) == 11
  {}

  lemma UnshiftTable()
    ensures UnshiftFrom(0) == 0 && UnshiftFrom(4) == 4 && UnshiftFrom(8) == 8 && UnshiftFrom(12) == 12
    ensures UnshiftFrom(5) == 1 && UnshiftFrom(9) == 5 && UnshiftFrom(13) == 9 && UnshiftFrom(1) == 13
    ensures UnshiftFrom(10) == 2 && UnshiftFrom(14) == 6 && UnshiftFrom(2) == 10 && UnshiftFrom(6) == 14
    ensures UnshiftFrom(15) == 3 && UnshiftFrom(3) == 7 && UnshiftFrom(7) == 11 && UnshiftFrom(11) == 15
  {}

  method ShiftRowsInPlace(b: array<Byte>)
    requires b.Length == 16
    modifies b
    ensures b[..] == ShiftRows(old(b[..]))
  {
    ghost var s := b[..];
    b[1], b[5], b[9], b[13] := b[5], b[9], b[13], b[1];
    b[2], b[6], b[10], b[14] := b[10], b[14], b[2], b[6];
    b[3], b[7], b[11], b[15] := b[15], b[3], b[7], b[11];
    ShiftedValues(s, b[..]);
  }

  method InvShiftRowsInPlace(b: array<Byte>)
    requires b.Length == 16
    modifies b
    ensures b[..] == InvShiftRows(old(b[..]))
  {
    ghost var s := b[..];
    b[5], b[9], b[13], b[1] := b[1], b[5], b[9], b[13];
    b[10], b[14], b[2], b[6] := b[2], b[6], b[10], b[14];
    b[15], b[3], b[7], b[11] := b[3], b[7], b[11], b[15];
    UnshiftedValues(s, b[..]);
  }

  lemma ShiftedValues(s: Bytes, r: Bytes)
    requires IsBlock(s) && IsBlock(r)
    requires r[0] == s[0] && r[4] == s[4] && r[8] == s[8] && r[12] == s[12]
    requires r[1] == s[5] && r[5] == s[9] && r[9] == s[13] && r[13] == s[1]
    requires r[2] == s[10] && r[6] == s[14] && r[10] == s[2] && r[14] == s[6]
    requires r[3] == s[15] && r[7] == s[3] && r[11] == s[7] && r[15] == s[11]
    ensures r == ShiftRows(s)
  {
    hide ShiftFrom;
    ShiftTable();
  }

  lemma UnshiftedValues(s: Bytes, r: Bytes)
    requires IsBlock(s) && IsBlock(r)
    requires r[0] == s[0] && r[4] == s[4] && r[8] == s[8] && r[12] == s[12]
    requires r[5] == s[1] && r[9] == s[5] && r[13] == s[9] && r[1] == s[13]
    requires r[10] == s[2] && r[14] == s[6] && r[2] == s[10] && r[6] == s[14]
    requires r[15] == s[3] && r[3] == s[7] && r[7] == s[11] && r[11] == s[15]
    ensures r == InvShiftRows(s)
  {
    hide UnshiftFrom;
    UnshiftTable();
  }

  lemma ColumnPlaces(c: nat, k: nat)
    requires c < 4 && k < 4
    ensures InColumn(4 * c + k, 0) == 4 * c + k
    ensures InColumn(4 * c + k, 1) == 4 * c + (k + 1) % 4
    ensures InColumn(4 * c + k, 2) == 4 * c + (k + 2) % 4
    ensures InColumn(4 * c + k, 3) == 4 * c + (k + 3) % 4
  {
    InColumnIs(c, k, 0);
    InColumnIs(c, k, 1);
    InColumnIs(c, k, 2);
    InColumnIs(c, k, 3);
    hide InColumn;
  }

  lemma InColumnIs(c: nat, k: nat, j: nat)
    requires c < 4 && k < 4
    ensures InColumn(4 * c + k, j) == 4 * c + (k + j) % 4
  {
    assert (4 * c + k) / 4 == c;
    assert 4 * c + k + j == 4 * c + (k + j);
  }

  lemma FourSum(a: Byte, b: Byte, c: Byte, d: Byte)
    ensures Xor(Xor(Xor(a, d), c), b) == Xor(Xor(a, b), Xor(c, d))
  {}

  lemma MixSum(a: Byte, b: Byte, c: Byte, d: Byte)
    ensures Xor(Xor(Xor(Mul(a, 2), d), c), Mul(b, 3)) == MixByte(a, b, c, d)
  {
    hide Xor, Mul;
    FourSum(Mul(a, 2), Mul(b, 3), c, d);
  }

  lemma UnmixSum(a: Byte, b: Byte, c: Byte, d: Byte)
    ensures Xor(Xor(Xor(Mul(a, 14), Mul(d, 9)), Mul(c, 13)), Mul(b, 11)) == UnmixByte(a, b, c, d)
  {
    hide Xor, Mul;
    FourSum(Mul(a, 14), Mul(b, 11), Mul(c, 13), Mul(d, 9));
  }

  /** The four sums of a mixed column; `MixByte` adds the same terms in another order. */
  method MixSums(v0: Byte, v1: Byte, v2: Byte, v3: Byte) returns (w0: Byte, w1: Byte, w2: Byte, w3: Byte)
    ensures w0 == MixByte(v0, v1, v2, v3) && w1 == MixByte(v1, v2, v3, v0)
    ensures w2 == MixByte(v2, v3, v0, v1) && w3 == MixByte(v3, v0, v1, v2)
  {
    hide Xor, Mul, MixByte;
    MixSum(v0, v1, v2, v3);
    MixSum(v1, v2, v3, v0);
    MixSum(v2, v3, v0, v1);
    MixSum(v3, v0, v1, v2);
    w0 := Xor(Xor(Xor(Mul(v0, 2), v3), v2), Mul(v1, 3));
    w1 := Xor(Xor(Xor(Mul(v1, 2), v0), v3), Mul(v2, 3));
    w2 := Xor(Xor(Xor(Mul(v2, 2), v1), v0), Mul(v3, 3));
    w3 := Xor(Xor(Xor(Mul(v3, 2), v2), v1), Mul(v0, 3));
  }

  method MixColumn(block: array<Byte>, col: nat)
    requires block.Length == 16 && col + 4 <= 16
    modifies block
    ensures block[col] == old(MixByte(block[col], block[col + 1], block[col + 2], block[col + 3]))
    ensures block[col + 1] == old(MixByte(block[col + 1], block[col + 2], block[col + 3], block[col]))
    ensures block[col + 2] == old(MixByte(block[col + 2], block[col + 3], block[col], block[col + 1]))
    ensures block[col + 3] == old(MixByte(block[col + 3], block[col], block[col + 1], block[col + 2]))
    ensures forall k :: 0 <= k < 16 && !(col <= k < col + 4) ==> block[k] == old(block[k])
  {
    hide MixByte;
    var v0, v1, v2, v3 := block[col], block[col + 1], block[col + 2], block[col + 3];
    var w0, w1, w2, w3 := MixSums(v0, v1, v2, v3);
    block[col], block[col + 1], block[col + 2], block[col + 3] := w0, w1, w2, w3;
  }

  lemma MixedColumn(b: Bytes, c: nat)
    requires IsBlock(b) && c < 4
    ensures var r := MixColumns(b);
      && r[4 * c] == MixByte(b[4 * c], b[4 * c + 1], b[4 * c + 2], b[4 * c + 3])
      && r[4 * c + 1] == MixByte(b[4 * c + 1], b[4 * c + 2], b[4 * c + 3], b[4 * c])
      && r[4 * c + 2] == MixByte(b[4 * c + 2], b[4 * c + 3], b[4 * c], b[4 * c + 1])
      && r[4 * c + 3] == MixByte(b[4 * c + 3], b[4 * c], b[4 * c + 1], b[4 * c + 2])
  {
    hide MixByte, InColumn;
    ColumnPlaces(c, 0);
    ColumnPlaces(c, 1);
    ColumnPlaces(c, 2);
    ColumnPlaces(c, 3);
  }

  method MixColumnsInPlace(block: array<Byte>)
    requires block.Length == 16
    modifies block
    ensures block[..] == MixColumns(old(block[..]))
  {
    hide MixByte, MixColumns;
    ghost var b := block[..];
    for i := 0 to 4
      invariant forall k :: 0 <= k < 4 * i ==> block[k] == MixColumns(b)[k]
      invariant forall k :: 4 * i <= k < 16 ==> block[k] == b[k]
    {
      MixColumn(block, i * 4);
      MixedColumn(b, i);
    }
  }

  /** The four sums of an unmixed column; `UnmixByte` adds the same terms in another order. */
  method UnmixSums(v0: Byte, v1: Byte, v2: Byte, v3: Byte) returns (w0: Byte, w1: Byte, w2: Byte, w3: Byte)
    ensures w0 == UnmixByte(v0, v1, v2, v3) && w1 == UnmixByte(v1, v2, v3, v0)
    ensures w2 == UnmixByte(v2, v3, v0, v1) && w3 == UnmixByte(v3, v0, v1, v2)
  {
    hide Xor, Mul, UnmixByte;
    UnmixSum(v0, v1, v2, v3);
    UnmixSum(v1, v2, v3, v0);
    UnmixSum(v2, v3, v0, v1);
    UnmixSum(v3, v0, v1, v2);
    w0 := Xor(Xor(Xor(Mul(v0, 14), Mul(v3, 9)), Mul(v2, 13)), Mul(v1, 11));
    w1 := Xor(Xor(Xor(Mul(v1, 14), Mul(v0, 9)), Mul(v3, 13)), Mul(v2, 11));
    w2 := Xor(Xor(Xor(Mul(v2, 14), Mul(v1, 9)), Mul(v0, 13)), Mul(v3, 11));
    w3 := Xor(Xor(Xor(Mul(v3, 14), Mul(v2, 9)), Mul(v1, 13)), Mul(v0, 11));
  }

  method UnmixColumn(block: array<Byte>, col: nat)
    requires block.Length == 16 && col + 4 <= 16
    modifies block
    ensures block[col] == old(UnmixByte(block[col], block[col + 1], block[col + 2], block[col + 3]))
    ensures block[col + 1] == old(UnmixByte(block[col + 1], block[col + 2], block[col + 3], block[col]))
    ensures block[col + 2] == old(UnmixByte(block[col + 2], block[col + 3], block[col], block[col + 1]))
    ensures block[col + 3] == old(UnmixByte(block[col + 3], block[col], block[col + 1], block[col + 2]))
    ensures forall k :: 0 <= k < 16 && !(col <= k < col + 4) ==> block[k] == old(block[k])
  {
    hide UnmixByte;
    var v0, v1, v2, v3 := block[col], block[col + 1], block[col + 2], block[col + 3];
    var w0, w1, w2, w3 := UnmixSums(v0, v1, v2, v3);
    block[col], block[col + 1], block[col + 2], block[col + 3] := w0, w1, w2, w3;
  }

  lemma UnmixedColumn(b: Bytes, c: nat)
    requires IsBlock(b) && c < 4
    ensures var r := InvMixColumns(b);
      && r[4 * c] == UnmixByte(b[4 * c], b[4 * c + 1], b[4 * c + 2], b[4 * c + 3])
      && r[4 * c + 1] == UnmixByte(b[4 * c + 1], b[4 * c + 2], b[4 * c + 3], b[4 * c])
      && r[4 * c + 2] == UnmixByte(b[4 * c + 2], b[4 * c + 3], b[4 * c], b[4 * c + 1])
      && r[4 * c + 3] == UnmixByte(b[4 * c + 3], b[4 * c], b[4 * c + 1], b[4 * c + 2])
  {
    hide UnmixByte, InColumn;
    ColumnPlaces(c, 0);
    ColumnPlaces(c, 1);
    ColumnPlaces(c, 2);
    ColumnPlaces(c, 3);
  }

  method InvMixColumnsInPlace(block: array<Byte>)
    requires block.Length == 16
    modifies block
    ensures block[..] == InvMixColumns(old(block[..]))
  {
    hide UnmixByte, InvMixColumns;
    ghost var b := block[..];
    for i := 0 to 4
      invariant forall k :: 0 <= k < 4 * i ==> block[k] == InvMixColumns(b)[k]
      invariant forall k :: 4 * i <= k < 16 ==> block[k] == b[k]
    {
      UnmixColumn(block, i * 4);
      UnmixedColumn(b, i);
    }
  }

  class AES {
    var key: Bytes
    var keySize: nat
    var rounds: nat
    var exkey: Bytes

    /** The object holds the expansion of its key, exactly as long as its rounds need. */
    predicate Keyed()
      reads this
    {
      && |key| == keySize
      && KeyLength(keySize)
      && rounds == RoundsFor(keySize)
      && |exkey| == 16 * (rounds + 1)
      && exkey[..keySize] == key
      && Expands(exkey, keySize / 4)
    }

    constructor ()
      ensures key == [] && exkey == []
    {
      key, keySize, rounds, exkey := [], 0, 0, [];
    }

    /** False stands for the ValueError of a key of another length. */
    method SetKey(newKey: Bytes) returns (ok: bool)
      modifies this
      ensures ok == KeyLength(|newKey|)
      ensures key == newKey
      ensures ok ==> Keyed() && rounds == keySize / 4 + 6 && |exkey| == 4 * keySize + 112
      ensures !ok ==> exkey == old(exkey)
    {
      key := newKey;
      keySize := |key|;
      if keySize == 16 {
        rounds := 10;
      } else if keySize == 24 {
        rounds := 12;
      } else if keySize == 32 {
        rounds := 14;
      } else {
        return false;
      }
      exkey := ExpandKey(key, rounds);
      ok := true;
    }

    method EncryptBlock(block: array<Byte>)
      requires Keyed() && block.Length == 16
      modifies block
      ensures block[..] == Encrypt(old(block[..]), exkey)
    {
      hide Expands, XorBlock, MixColumns, SubBytes, ShiftRows, RoundKey;
      AddRoundKey(block, exkey, 0);
      for round := 1 to rounds
        invariant block[..] == AfterRounds(old(block[..]), exkey, round - 1)
      {
        SubBytesInPlace(block);
        ShiftRowsInPlace(block);
        MixColumnsInPlace(block);
        AddRoundKey(block, exkey, round);
      }
      SubBytesInPlace(block);
      ShiftRowsInPlace(block);
      AddRoundKey(block, exkey, rounds);
    }

    method DecryptBlock(block: array<Byte>)
      requires Keyed() && block.Length == 16
      modifies block
      ensures block[..] == Decrypt(old(block[..]), exkey)
    {
      hide Expands, XorBlock, InvMixColumns, InvSubBytes, InvShiftRows, RoundKey;
      AddRoundKey(block, exkey, rounds);
      for round := rounds downto 1
        invariant UndoRounds(block[..], exkey, round - 1) == Decrypt(old(block[..]), exkey)
      {
        InvShiftRowsInPlace(block);
        InvSubBytesInPlace(block);
        AddRoundKey(block, exkey, round);
        InvMixColumnsInPlace(block);
      }
      InvShiftRowsInPlace(block);
      InvSubBytesInPlace(block);
      AddRoundKey(block, exkey, 0);
    }
  }

  // ---------------------------------------------------------------------
  // Key expansion
  // ---------------------------------------------------------------------

  predicate KeyLength(n: nat) {
    n == 16 || n == 24 || n == 32
  }

  function RoundsFor(n: nat): nat {
    if n == 16 then 10 else if n == 24 then 12 else 14
  }

  method MixIn(word0: Bytes, exkey: Bytes, keySize: nat) returns (word: Bytes)
    requires IsWord(word0) && |exkey| % 4 == 0 && keySize % 4 == 0 && 4 <= keySize <= |exkey|
    ensures IsWord(word) && word == XorWord(word0, WordAt(exkey, |exkey| / 4 - keySize / 4))
  {
    hide Xor;
    word := word0;
    for j := 0 to 4
      invariant IsWord(word)
      invariant forall k :: 0 <= k < j ==> word[k] == Xor(word0[k], exkey[|exkey| - keySize + k])
      invariant forall k :: j <= k < 4 ==> word[k] == word0[k]
    {
      word := word[j := Xor(word[j], exkey[|exkey| - keySize + j])];
    }
  }

  method SubWord(word0: Bytes) returns (word: Bytes)
    requires IsWord(word0)
    ensures word == SubBytes(word0)
  {
    hide Sub;
    word := word0;
    for j := 0 to 4
      invariant IsWord(word)
      invariant forall k :: 0 <= k < j ==> word[k] == Sub(word0[k])
      invariant forall k :: j <= k < 4 ==> word[k] == word0[k]
    {
      word := word[j := Sub(word[j])];
    }
  }

  /** The key schedule core: rotate, substitute, add the round constant. */
  method Core(word0: Bytes, i: nat) returns (word: Bytes)
    requires IsWord(word0) && 1 <= i <= 10
    ensures word == XorWord(SubBytes(RotWord(word0)), RconWord(i))
  {
    hide Xor, SubBytes, Rcon, XorWord;
    word := word0[1..4] + word0[0..1];
    word := SubWord(word);
    RconAdded(word, i);
    word := word[0 := Xor(word[0], Rcon(i))];
  }

  /** A round constant is not zero in its first byte only. */
  lemma RconAdded(t: Bytes, i: nat)
    requires IsWord(t) && i <= 10
    ensures XorWord(t, RconWord(i)) == t[0 := Xor(t[0], Rcon(i))]
  {
    XorZero(t[1]);
    XorZero(t[2]);
    XorZero(t[3]);
    hide Xor, Rcon;
    var r := XorWord(t, RconWord(i));
    assert r[0] == Xor(t[0], Rcon(i)) && r[1] == t[1] && r[2] == t[2] && r[3] == t[3];
  }

  /** One word more: `word` holds what the recurrence adds to the word `keySize` bytes back. */
  method Extend(exkey: Bytes, word0: Bytes, keySize: nat) returns (exkey': Bytes, word: Bytes)
    requires KeyLength(keySize) && Expands(exkey, keySize / 4) && |exkey| + 4 <= 11 * keySize
    requires IsWord(word0)
    requires word0 == Temp(WordAt(exkey, |exkey| / 4 - 1), |exkey| / 4, keySize / 4)
    ensures Expands(exkey', keySize / 4) && |exkey'| == |exkey| + 4 && exkey'[..keySize] == exkey[..keySize]
    ensures IsWord(word) && word == WordAt(exkey', |exkey'| / 4 - 1)
  {
    hide Expands, WordAt, Temp, XorWord;
    ExpandsLength(exkey, keySize / 4);
    word := MixIn(word0, exkey, keySize);
    exkey' := exkey + word;
    ExpandsMore(exkey, word, keySize / 4);
  }

  /** Word `n` continues the word before it unchanged. */
  predicate Plain(n: nat, nk: nat)
    requires nk > 0
  {
    n % nk != 0 && !(nk > 6 && n % nk == 4)
  }

  method ExtendPlain(exkey0: Bytes, word0: Bytes, keySize: nat, count: nat) returns (exkey: Bytes, word: Bytes)
    requires KeyLength(keySize) && Expands(exkey0, keySize / 4) && |exkey0| + 4 * count <= 11 * keySize
    requires word0 == WordAt(exkey0, |exkey0| / 4 - 1)
    requires forall m: nat :: |exkey0| / 4 <= m < |exkey0| / 4 + count ==> Plain(m, keySize / 4)
    ensures Expands(exkey, keySize / 4) && |exkey| == |exkey0| + 4 * count && exkey[..keySize] == exkey0[..keySize]
    ensures IsWord(word) && word == WordAt(exkey, |exkey| / 4 - 1)
  {
    assert |exkey0| % 4 == 0 && |exkey0| >= keySize;
    hide Expands, WordAt;
    exkey, word := exkey0, word0;
    for z := 0 to count
      invariant |exkey| == |exkey0| + 4 * z && exkey[..keySize] == exkey0[..keySize]
      invariant Expands(exkey, keySize / 4)
      invariant word == WordAt(exkey, |exkey| / 4 - 1)
    {
      var n := |exkey| / 4;
      assert Plain(n, keySize / 4);
      assert word == Temp(WordAt(exkey, n - 1), n, keySize / 4);
      exkey, word := Extend(exkey, word, keySize);
    }
  }

  lemma WordsOfCycle(i: nat, nk: nat)
    requires KeyWords(nk) && 1 <= i
    ensures i * nk % nk == 0 && i * nk / nk == i
    ensures Plain(i * nk + 1, nk) && Plain(i * nk + 2, nk) && Plain(i * nk + 3, nk)
    ensures nk == 6 ==> Plain(i * nk + 4, nk) && Plain(i * nk + 5, nk)
    ensures nk == 8 ==> Plain(i * nk + 5, nk) && Plain(i * nk + 6, nk) && Plain(i * nk + 7, nk)
    ensures nk == 8 ==> (i * nk + 4) % nk == 4 && (i * nk + 4) / nk == i
    ensures i <= 10 ==> 4 * (i * nk) + 16 <= 44 * nk
  {
    Residue(i, nk, 0);
    Residue(i, nk, 1);
    Residue(i, nk, 2);
    Residue(i, nk, 3);
    if nk == 6 {
      Residue(i, nk, 4);
      Residue(i, nk, 5);
    }
    if nk == 8 {
      Residue(i, nk, 4);
      Residue(i, nk, 5);
      Residue(i, nk, 6);
      Residue(i, nk, 7);
    }
    if i <= 10 {
      LastCycle(i, nk);
    }
  }

  lemma Residue(i: nat, nk: nat, r: nat)
    requires KeyWords(nk) && r < nk
    ensures (i * nk + r) % nk == r && (i * nk + r) / nk == i
  {
    if nk == 4 {
      assert i * nk == 4 * i;
    } else if nk == 6 {
      assert i * nk == 6 * i;
    } else {
      assert i * nk == 8 * i;
    }
  }

  lemma LastCycle(i: nat, nk: nat)
    requires KeyWords(nk) && i <= 10
    ensures 4 * (i * nk) + 16 <= 44 * nk
  {
    if nk == 4 {
      assert i * nk == 4 * i;
    } else if nk == 6 {
      assert i * nk == 6 * i;
    } else {
      assert i * nk == 8 * i;
    }
  }

  lemma CoreIsTemp(last: Bytes, i: nat, nk: nat)
    requires KeyWords(nk) && IsWord(last) && 1 <= i <= 10 && i * nk / nk == i && i * nk % nk == 0
    ensures Temp(last, i * nk, nk) == XorWord(SubBytes(RotWord(last)), RconWord(i))
  {}

  /** Four words: the first through the key schedule core. */
  method FirstWords(exkey0: Bytes, word0: Bytes, keySize: nat, i: nat) returns (exkey: Bytes, word: Bytes)
    requires KeyLength(keySize) && 1 <= i <= 10 && |exkey0| == i * keySize && Expands(exkey0, keySize / 4)
    requires word0 == WordAt(exkey0, |exkey0| / 4 - 1)
    ensures Expands(exkey, keySize / 4) && |exkey| == i * keySize + 16 && exkey[..keySize] == exkey0[..keySize]
    ensures word == WordAt(exkey, |exkey| / 4 - 1)
  {
    ghost var n, nk := |exkey0| / 4, keySize / 4;
    assert n == i * nk;
    WordsOfCycle(i, nk);
    hide Expands, WordAt, Plain, Temp;
    word := Core(word0, i);
    CoreIsTemp(word0, i, nk);
    exkey, word := Extend(exkey0, word, keySize);
    assert |exkey| / 4 == n + 1;
    exkey, word := ExtendPlain(exkey, word, keySize, 3);
  }

  /** For the longest keys, one word made by substitution alone. */
  method SubstitutedWord(exkey0: Bytes, word0: Bytes, i: nat) returns (exkey: Bytes, word: Bytes)
    requires 1 <= i <= 10 && |exkey0| == i * 32 + 16 && Expands(exkey0, 8)
    requires word0 == WordAt(exkey0, |exkey0| / 4 - 1)
    ensures Expands(exkey, 8) && |exkey| == i * 32 + 20 && exkey[..32] == exkey0[..32]
    ensures word == WordAt(exkey, |exkey| / 4 - 1)
  {
    ghost var n := |exkey0| / 4;
    assert n == i * 8 + 4;
    WordsOfCycle(i, 8);
    hide Expands, WordAt;
    word := SubWord(word0);
    assert word == Temp(word0, n, 8);
    exkey, word := Extend(exkey0, word, 32);
  }

  /** The words of a cycle after its first four. */
  method LastWords(exkey0: Bytes, word0: Bytes, keySize: nat, i: nat, extraCount: nat)
    returns (exkey: Bytes, word: Bytes)
    requires KeyLength(keySize) && 1 <= i < 10 && |exkey0| == i * keySize + 16 && Expands(exkey0, keySize / 4)
    requires extraCount == if keySize == 16 then 0 else if keySize == 24 then 2 else 3
    requires word0 == WordAt(exkey0, |exkey0| / 4 - 1)
    ensures Expands(exkey, keySize / 4) && |exkey| == (i + 1) * keySize && exkey[..keySize] == exkey0[..keySize]
    ensures word == WordAt(exkey, |exkey| / 4 - 1)
  {
    hide Expands, WordAt, Plain;
    WordsOfCycle(i, keySize / 4);
    exkey, word := exkey0, word0;
    if keySize == 32 {
      exkey, word := SubstitutedWord(exkey, word, i);
    }
    exkey, word := ExtendPlain(exkey, word, keySize, extraCount);
  }

  method ExpandKey(key: Bytes, rounds: nat) returns (exkey: Bytes)
    requires KeyLength(|key|) && rounds == RoundsFor(|key|)
    ensures |exkey| == 16 * (rounds + 1) == 4 * |key| + 112
    ensures exkey[..|key|] == key && Expands(exkey, |key| / 4)
  {
    var keySize := |key|;
    exkey := key;
    var extraCount := if keySize == 16 then 0 else if keySize == 24 then 2 else 3;
    var word := exkey[|exkey| - 4..];
    assert word == WordAt(exkey, |exkey| / 4 - 1);
    assert Expands(exkey, keySize / 4);
    hide Expands, WordAt;
    for i := 1 to 11
      invariant |exkey| == i * keySize && exkey[..keySize] == key && Expands(exkey, keySize / 4)
      invariant word == WordAt(exkey, |exkey| / 4 - 1)
      invariant |exkey| < 16 * (rounds + 1)
    {
      exkey, word := FirstWords(exkey, word, keySize, i);
      if |exkey| >= (rounds + 1) * 16 {
        return;
      }
      exkey, word := LastWords(exkey, word, keySize, i, extraCount);
    }
    assert false;
  }
}
