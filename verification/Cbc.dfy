/**
  Cipher block chaining, class CBCMode of own/pyaes.py and section 6.2 of NIST SP 800-38A.
 */
module Cbc {

  import opened AesField
  import opened AesRounds
  import opened AesCipher

  predicate IsWhole(data: Bytes) {
    |data| % 16 == 0
  }

  /** The chained encryption of whole blocks, starting from `iv`. */
  function CbcEncrypt(w: Bytes, iv: Bytes, data: Bytes): (r: Bytes)
    requires IsKey(w) && |iv| >= 16 && IsWhole(data)
    ensures |r| == |data|
    decreases |data|
  {
    if data == [] then []
    else
      var c := Encrypt(XorBlock(data[..16], iv), w);
      c + CbcEncrypt(w, c, data[16..])
  }

  function CbcDecrypt(w: Bytes, iv: Bytes, data: Bytes): (r: Bytes)
    requires IsKey(w) && |iv| >= 16 && IsWhole(data)
    ensures |r| == |data|
    decreases |data|
  {
    if data == [] then []
    else XorBlock(Decrypt(data[..16], w), iv) + CbcDecrypt(w, data[..16], data[16..])
  }

  /** What the next block is chained to: the last ciphertext block, or the vector if there is none. */
  function Chain(iv: Bytes, cipher: Bytes): (r: Bytes)
    requires |iv| >= 16 && IsWhole(cipher)
    ensures |r| >= 16
  {
    if cipher == [] then iv else cipher[|cipher| - 16..]
  }

  function BlockAt(data: Bytes, j: nat): (b: Bytes)
    requires 16 * (j + 1) <= |data|
    ensures IsBlock(b)
  {
    data[16 * j..16 * (j + 1)]
  }

  lemma ChainStep(iv: Bytes, c: Bytes, rest: Bytes)
    requires |iv| >= 16 && IsBlock(c) && IsWhole(rest)
    ensures Chain(iv, c + rest) == Chain(c, rest)
  {}

  /** Encrypting in pieces, each chained to the one before, is encrypting at once. */
  lemma {:induction false} EncryptInPieces(w: Bytes, iv: Bytes, a: Bytes, b: Bytes)
    requires IsKey(w) && |iv| >= 16 && IsWhole(a) && IsWhole(b)
    ensures CbcEncrypt(w, iv, a + b)
      == CbcEncrypt(w, iv, a) + CbcEncrypt(w, Chain(iv, CbcEncrypt(w, iv, a)), b)
    decreases |a|
  {
    hide Encrypt, XorBlock;
    if a == [] {
      assert a + b == b;
    } else {
      var c := Encrypt(XorBlock(a[..16], iv), w);
      assert (a + b)[..16] == a[..16];
      assert (a + b)[16..] == a[16..] + b;
      EncryptInPieces(w, c, a[16..], b);
      ChainStep(iv, c, CbcEncrypt(w, c, a[16..]));
    }
  }

  lemma {:induction false} DecryptInPieces(w: Bytes, iv: Bytes, a: Bytes, b: Bytes)
    requires IsKey(w) && |iv| >= 16 && IsWhole(a) && IsWhole(b)
    ensures CbcDecrypt(w, iv, a + b) == CbcDecrypt(w, iv, a) + CbcDecrypt(w, Chain(iv, a), b)
    decreases |a|
  {
    hide Decrypt, XorBlock;
    if a == [] {
      assert a + b == b;
    } else {
      assert (a + b)[..16] == a[..16];
      assert (a + b)[16..] == a[16..] + b;
      DecryptInPieces(w, a[..16], a[16..], b);
      ChainStep(iv, a[..16], a[16..]);
      assert a == a[..16] + a[16..];
    }
  }

  /** Decrypting what was encrypted under the same key and vector returns the data. */
  lemma {:induction false} CbcReturns(w: Bytes, iv: Bytes, data: Bytes)
    requires IsKey(w) && |iv| >= 16 && IsWhole(data)
    ensures CbcDecrypt(w, iv, CbcEncrypt(w, iv, data)) == data
    decreases |data|
  {
    if data != [] {
      var x := XorBlock(data[..16], iv);
      var c := Encrypt(x, w);
      DecryptReturns(x, w);
      XorBlockReturns(data[..16], iv);
      CbcReturns(w, c, data[16..]);
      hide Encrypt, Decrypt, XorBlock;
      var rest := CbcEncrypt(w, c, data[16..]);
      assert (c + rest)[..16] == c && (c + rest)[16..] == rest;
    }
  }

  /** Block by block: C_j is the cipher of P_j added to C_{j-1}, with C_{-1} the vector. */
  lemma {:induction false} CbcBlocks(w: Bytes, iv: Bytes, data: Bytes, j: nat)
    requires IsKey(w) && |iv| >= 16 && IsWhole(data) && 16 * (j + 1) <= |data|
    ensures var c := CbcEncrypt(w, iv, data);
      BlockAt(c, j) == Encrypt(XorBlock(BlockAt(data, j), if j == 0 then iv else BlockAt(c, j - 1)), w)
    decreases j
  {
    hide Encrypt, XorBlock;
    var first := Encrypt(XorBlock(data[..16], iv), w);
    var rest := CbcEncrypt(w, first, data[16..]);
    assert CbcEncrypt(w, iv, data) == first + rest;
    assert BlockAt(first + rest, 0) == first;
    if j > 0 {
      CbcBlocks(w, first, data[16..], j - 1);
      LaterBlock(first, rest, j);
      LaterBlock(data[..16], data[16..], j);
      assert data == data[..16] + data[16..];
      if j > 1 {
        LaterBlock(first, rest, j - 1);
      }
    }
  }

  lemma LaterBlock(b: Bytes, rest: Bytes, j: nat)
    requires IsBlock(b) && j > 0 && 16 * j <= |rest|
    ensures BlockAt(b + rest, j) == BlockAt(rest, j - 1)
  {}

  /** A call's bytes, or the exception it raises. */
  datatype Outcome = Done(data: Bytes) | ValueError | IndexError

  class CBCMode {
    const cipher: AES
    var iv: Bytes

    constructor (cipher: AES, iv: Bytes)
      ensures this.cipher == cipher && this.iv == iv
    {
      this.cipher, this.iv := cipher, iv;
    }

    method EncryptNext(block0: Bytes, iv0: Bytes) returns (block: Bytes)
      requires cipher.Keyed() && IsBlock(block0) && |iv0| >= 16
      ensures block == Encrypt(XorBlock(block0, iv0), cipher.exkey)
    {
      hide Encrypt, XorBlock;
      var b := new Byte[16](i requires 0 <= i < 16 => block0[i]);
      assert b[..] == block0;
      Add(b, iv0);
      cipher.EncryptBlock(b);
      block := b[..];
    }

    method DecryptNext(block0: Bytes, iv0: Bytes) returns (block: Bytes)
      requires cipher.Keyed() && IsBlock(block0) && |iv0| >= 16
      ensures block == XorBlock(Decrypt(block0, cipher.exkey), iv0)
    {
      hide Decrypt, XorBlock;
      var b := new Byte[16](i requires 0 <= i < 16 => block0[i]);
      assert b[..] == block0;
      cipher.DecryptBlock(b);
      Add(b, iv0);
      block := b[..];
    }

    method Add(b: array<Byte>, iv0: Bytes)
      requires b.Length == 16 && |iv0| >= 16
      modifies b
      ensures b[..] == XorBlock(old(b[..]), iv0)
    {
      hide Xor;
      for i := 0 to 16
        invariant forall k :: 0 <= k < i ==> b[k] == Xor(old(b[k]), iv0[k])
        invariant forall k :: i <= k < 16 ==> b[k] == old(b[k])
      {
        b[i] := Xor(b[i], iv0[i]);
      }
    }

    method EncryptBlocks(data0: Bytes, v0: Bytes) returns (data: Bytes, v: Bytes)
      requires cipher.Keyed() && IsWhole(data0) && |v0| >= 16
      ensures data == CbcEncrypt(cipher.exkey, v0, data0)
      ensures v == Chain(v0, data)
    {
      hide Encrypt, XorBlock, CbcEncrypt, Chain, EncryptedPrefix;
      data, v := data0, v0;
      PrefixStart(cipher.exkey, v0, data0);
      for n := 0 to |data| / 16
        invariant |data| == |data0| && |v| >= 16
        invariant EncryptedPrefix(cipher.exkey, v0, data0, data, v, n)
      {
        var offset := 16 * n;
        var block := EncryptNext(data[offset..offset + 16], v);
        EncryptedStep(cipher.exkey, v0, data0, data, v, n, block);
        data := data[..offset] + block + data[offset + 16..];
        v := block;
      }
      EncryptedAll(cipher.exkey, v0, data0, data, v);
    }

    /** A vector of less than sixteen bytes fails at its first use; of a longer one the start is used. */
    method EncryptData(data0: Bytes) returns (r: Outcome)
      requires cipher.Keyed()
      modifies this`iv
      ensures r == if |data0| % 16 != 0 then ValueError
        else if data0 != [] && |old(iv)| < 16 then IndexError
        else if data0 == [] then Done([])
        else Done(CbcEncrypt(cipher.exkey, old(iv), data0))
      ensures iv == if r.Done? && data0 != [] then Chain(old(iv), r.data) else old(iv)
    {
      if |data0| % 16 != 0 {
        return ValueError;
      }
      if data0 != [] && |iv| < 16 {
        return IndexError;
      }
      hide CbcEncrypt, Chain;
      var data := data0;
      if data != [] {
        data, iv := EncryptBlocks(data, iv);
      }
      r := Done(data);
    }

    method DecryptBlocks(data0: Bytes, v0: Bytes) returns (data: Bytes, v: Bytes)
      requires cipher.Keyed() && IsWhole(data0) && |v0| >= 16
      ensures data == CbcDecrypt(cipher.exkey, v0, data0)
      ensures v == Chain(v0, data0)
    {
      hide Decrypt, XorBlock, CbcDecrypt, Chain, DecryptedPrefix;
      data, v := data0, v0;
      PrefixStart(cipher.exkey, v0, data0);
      for n := 0 to |data| / 16
        invariant |data| == |data0| && |v| >= 16
        invariant DecryptedPrefix(cipher.exkey, v0, data0, data, v, n)
      {
        var offset := 16 * n;
        var ctext := data[offset..offset + 16];
        var block := DecryptNext(ctext, v);
        DecryptedStep(cipher.exkey, v0, data0, data, v, n, block);
        data := data[..offset] + block + data[offset + 16..];
        v := ctext;
      }
      DecryptedAll(cipher.exkey, v0, data0, data, v);
    }

    method DecryptData(data0: Bytes) returns (r: Outcome)
      requires cipher.Keyed()
      modifies this`iv
      ensures r == if |data0| % 16 != 0 then ValueError
        else if data0 != [] && |old(iv)| < 16 then IndexError
        else if data0 == [] then Done([])
        else Done(CbcDecrypt(cipher.exkey, old(iv), data0))
      ensures iv == if r.Done? && data0 != [] then Chain(old(iv), data0) else old(iv)
    {
      if |data0| % 16 != 0 {
        return ValueError;
      }
      if data0 != [] && |iv| < 16 {
        return IndexError;
      }
      hide CbcDecrypt, Chain;
      var data := data0;
      if data != [] {
        data, iv := DecryptBlocks(data, iv);
      }
      r := Done(data);
    }

  }

  /** The first `n` blocks of `data` are encrypted and `v` is what the next is chained to. */
  ghost predicate EncryptedPrefix(w: Bytes, iv: Bytes, data0: Bytes, data: Bytes, v: Bytes, n: nat)
    requires IsKey(w)
  {
    && |iv| >= 16
    && |data| == |data0|
    && 16 * n <= |data|
    && data[16 * n..] == data0[16 * n..]
    && data[..16 * n] == CbcEncrypt(w, iv, data0[..16 * n])
    && v == Chain(iv, data[..16 * n])
  }

  ghost predicate DecryptedPrefix(w: Bytes, iv: Bytes, data0: Bytes, data: Bytes, v: Bytes, n: nat)
    requires IsKey(w)
  {
    && |iv| >= 16
    && |data| == |data0|
    && 16 * n <= |data|
    && data[16 * n..] == data0[16 * n..]
    && data[..16 * n] == CbcDecrypt(w, iv, data0[..16 * n])
    && v == Chain(iv, data0[..16 * n])
  }

  lemma PrefixStart(w: Bytes, iv: Bytes, data: Bytes)
    requires IsKey(w) && |iv| >= 16
    ensures EncryptedPrefix(w, iv, data, data, iv, 0) && DecryptedPrefix(w, iv, data, data, iv, 0)
  {}

  lemma {:induction false} EncryptedAll(w: Bytes, iv: Bytes, data0: Bytes, data: Bytes, v: Bytes)
    requires IsKey(w) && IsWhole(data0) && EncryptedPrefix(w, iv, data0, data, v, |data| / 16)
    ensures data == CbcEncrypt(w, iv, data0) && v == Chain(iv, data)
  {
    assert data[..16 * (|data| / 16)] == data && data0[..16 * (|data| / 16)] == data0;
  }

  lemma {:induction false} DecryptedAll(w: Bytes, iv: Bytes, data0: Bytes, data: Bytes, v: Bytes)
    requires IsKey(w) && IsWhole(data0) && DecryptedPrefix(w, iv, data0, data, v, |data| / 16)
    ensures data == CbcDecrypt(w, iv, data0) && v == Chain(iv, data0)
  {
    assert data[..16 * (|data| / 16)] == data && data0[..16 * (|data| / 16)] == data0;
  }

  lemma EncryptedStep(w: Bytes, iv: Bytes, data0: Bytes, data: Bytes, v: Bytes, n: nat, block: Bytes)
    requires IsKey(w) && EncryptedPrefix(w, iv, data0, data, v, n) && 16 * (n + 1) <= |data|
    requires block == Encrypt(XorBlock(data[16 * n..16 * n + 16], v), w)
    ensures EncryptedPrefix(w, iv, data0, data[..16 * n] + block + data[16 * n + 16..], block, n + 1)
  {
    hide Encrypt, XorBlock;
    var b := data[16 * n..16 * n + 16];
    assert b == data[16 * n..][..16] == data0[16 * n..][..16];
    assert data0[..16 * (n + 1)] == data0[..16 * n] + b;
    EncryptInPieces(w, iv, data0[..16 * n], b);
    assert b[..16] == b && b[16..] == [];
    assert CbcEncrypt(w, block, []) == [];
    assert CbcEncrypt(w, v, b) == block + [];
    var data' := data[..16 * n] + block + data[16 * n + 16..];
    assert data'[16 * (n + 1)..] == data[16 * n + 16..] == data[16 * n..][16..];
    assert data0[16 * (n + 1)..] == data0[16 * n..][16..];
    assert data'[..16 * (n + 1)] == data[..16 * n] + block;
  }

  lemma DecryptedStep(w: Bytes, iv: Bytes, data0: Bytes, data: Bytes, v: Bytes, n: nat, block: Bytes)
    requires IsKey(w) && DecryptedPrefix(w, iv, data0, data, v, n) && 16 * (n + 1) <= |data|
    requires block == XorBlock(Decrypt(data[16 * n..16 * n + 16], w), v)
    ensures DecryptedPrefix(w, iv, data0, data[..16 * n] + block + data[16 * n + 16..], data[16 * n..16 * n + 16], n
      + 1)
  {
    hide Decrypt, XorBlock;
    var b := data[16 * n..16 * n + 16];
    assert b == data[16 * n..][..16] == data0[16 * n..][..16];
    assert data0[..16 * (n + 1)] == data0[..16 * n] + b;
    DecryptInPieces(w, iv, data0[..16 * n], b);
    assert b[..16] == b && b[16..] == [];
    assert CbcDecrypt(w, b, []) == [];
    assert CbcDecrypt(w, v, b) == block + [];
    var data' := data[..16 * n] + block + data[16 * n + 16..];
    assert data'[16 * (n + 1)..] == data[16 * n + 16..] == data[16 * n..][16..];
    assert data0[16 * (n + 1)..] == data0[16 * n..][16..];
    assert data'[..16 * (n + 1)] == data[..16 * n] + block;
  }
}
