/**
  The tables of own/pyaes.py: the S-box, its inverse and the round constants.
 */
module AesTables {

  import opened AesField

  /** Sixteen entries of the S-box, as one number. */
  function SboxRow(h: bv8): bv128 {
    if h == 0 then 0x637c777bf26b6fc53001672bfed7ab76
    else if h == 1 then 0xca82c97dfa5947f0add4a2af9ca472c0
    else if h == 2 then 0xb7fd9326363ff7cc34a5e5f171d83115
    else if h == 3 then 0x04c723c31896059a071280e2eb27b275
    else if h == 4 then 0x09832c1a1b6e5aa0523bd6b329e32f84
    else if h == 5 then 0x53d100ed20fcb15b6acbbe394a4c58cf
    else if h == 6 then 0xd0efaafb434d338545f9027f503c9fa8
    else if h == 7 then 0x51a3408f929d38f5bcb6da2110fff3d2
    else if h == 8 then 0xcd0c13ec5f974417c4a77e3d645d1973
    else if h == 9 then 0x60814fdc222a908846eeb814de5e0bdb
    else if h == 10 then 0xe0323a0a4906245cc2d3ac629195e479
    else if h == 11 then 0xe7c8376d8dd54ea96c56f4ea657aae08
    else if h == 12 then 0xba78252e1ca6b4c6e8dd741f4bbd8b8a
    else if h == 13 then 0x703eb5664803f60e613557b986c11d9e
    else if h == 14 then 0xe1f8981169d98e949b1e87e9ce5528df
    else 0x8ca1890dbfe6426841992d0fb054bb16
  }

  /** Sixteen entries of the inverse S-box. */
  function InvSboxRow(h: bv8): bv128 {
    if h == 0 then 0x52096ad53036a538bf40a39e81f3d7fb
    else if h == 1 then 0x7ce339829b2fff87348e4344c4dee9cb
    else if h == 2 then 0x547b9432a6c2233dee4c950b42fac34e
    else if h == 3 then 0x082ea16628d924b2765ba2496d8bd125
    else if h == 4 then 0x72f8f66486689816d4a45ccc5d65b692
    else if h == 5 then 0x6c704850fdedb9da5e154657a78d9d84
    else if h == 6 then 0x90d8ab008cbcd30af7e45805b8b34506
    else if h == 7 then 0xd02c1e8fca3f0f02c1afbd0301138a6b
    else if h == 8 then 0x3a9111414f67dcea97f2cfcef0b4e673
    else if h == 9 then 0x96ac7422e7ad3585e2f937e81c75df6e
    else if h == 10 then 0x47f11a711d29c5896fb7620eaa18be1b
    else if h == 11 then 0xfc563e4bc6d279209adbc0fe78cd5af4
    else if h == 12 then 0x1fdda8338807c731b11210592780ec5f
    else if h == 13 then 0x60517fa919b54a0d2de57a9f93c99cef
    else if h == 14 then 0xa0e03b4dae2af5b0c8ebbb3c83539961
    else 0x172b047eba77d626e169146355210c7d
  }

  /** Byte `i` of a row, counted from the most significant. */
  function ByteOf(row: bv128, i: bv8): bv8
    requires i < 16
  {
    ((row >> (8 * (15 - i))) & 0xff) as bv8
  }

  function Sbox(x: bv8): bv8 {
    ByteOf(SboxRow(x >> 4), x & 15)
  }

  function InvSbox(x: bv8): bv8 {
    ByteOf(InvSboxRow(x >> 4), x & 15)
  }

  /** The two tables are inverse to each other. */
  lemma SboxInverse(x: bv8)
    ensures InvSbox(Sbox(x)) == x
    ensures Sbox(InvSbox(x)) == x
  {
    if x < 0x80 {
      SboxInverseLow(x);
      InvSboxInverseLow(x);
    } else {
      SboxInverseHigh(x);
      InvSboxInverseHigh(x);
    }
  }

  lemma SboxInverseLow(x: bv8)
    requires x < 0x80
    ensures InvSbox(Sbox(x)) == x
  {}

  lemma SboxInverseHigh(x: bv8)
    requires x >= 0x80
    ensures InvSbox(Sbox(x)) == x
  {}

  lemma InvSboxInverseLow(x: bv8)
    requires x < 0x80
    ensures Sbox(InvSbox(x)) == x
  {}

  lemma InvSboxInverseHigh(x: bv8)
    requires x >= 0x80
    ensures Sbox(InvSbox(x)) == x
  {}

  function Rotl(x: bv8, n: bv8): bv8
    requires 0 < n < 8
  {
    (x << n) | (x >> (8 - n))
  }

  /** The affine transformation of section 5.1.1 of FIPS 197. */
  function Affine(y: bv8): bv8 {
    y ^ Rotl(y, 1) ^ Rotl(y, 2) ^ Rotl(y, 3) ^ Rotl(y, 4) ^ 0x63
  }

  function InvAffine(z: bv8): bv8 {
    Rotl(z, 1) ^ Rotl(z, 3) ^ Rotl(z, 6) ^ 0x05
  }

  lemma AffineInverse(z: bv8)
    ensures Affine(InvAffine(z)) == z
  {}

  lemma SboxInvertsLow(x: bv8)
    requires x < 0x80
    ensures if x == 0 then InvAffine(Sbox(x)) == 0 else Product(x, InvAffine(Sbox(x))) == 1
  {}

  lemma SboxInvertsThird(x: bv8)
    requires 0x80 <= x < 0xc0
    ensures Product(x, InvAffine(Sbox(x))) == 1
  {}

  lemma SboxInvertsFourth(x: bv8)
    requires x >= 0xc0
    ensures Product(x, InvAffine(Sbox(x))) == 1
  {}

  /** The S-box table is the affine image of the multiplicative inverse (zero counting as its own). */
  lemma SboxIsAffineOfInverse(x: bv8)
    ensures exists y :: (if x == 0 then y == 0 else Product(x, y) == 1) && Sbox(x) == Affine(y)
  {
    hide Sbox, Product, Affine;
    var y := InvAffine(Sbox(x));
    if x < 0x80 {
      SboxInvertsLow(x);
    } else if x < 0xc0 {
      SboxInvertsThird(x);
    } else {
      SboxInvertsFourth(x);
    }
    AffineInverse(Sbox(x));
    assert (if x == 0 then y == 0 else Product(x, y) == 1) && Sbox(x) == Affine(y);
  }

  /** The start of the round constant table; entry 0 is never used. */
  const RCON: seq<bv8> := [0x8d, 0x01, 0x02, 0x04, 0x08, 0x10, 0x20, 0x40, 0x80, 0x1b, 0x36]

  /** The powers of x, section 5.2 of FIPS 197. */
  function PowerOfX(n: nat): bv8 {
    if n == 0 then 1 else Xtime(PowerOfX(n - 1))
  }

  lemma {:induction false} RconIsPower(i: nat)
    requires 1 <= i <= 10
    ensures RCON[i] == PowerOfX(i - 1)
  {
    if i > 1 {
      RconIsPower(i - 1);
    }
  }

  // The tables on bytes.

  function Sub(a: Byte): Byte {
    Byte(Sbox(a.v))
  }

  function InvSub(a: Byte): Byte {
    Byte(InvSbox(a.v))
  }

  lemma SubReturns(a: Byte)
    ensures InvSub(Sub(a)) == a && Sub(InvSub(a)) == a
  {
    SboxInverse(a.v);
    hide Sbox, InvSbox;
  }

  function Rcon(i: nat): Byte
    requires i <= 10
  {
    Byte(RCON[i])
  }
}
