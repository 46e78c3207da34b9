/**
  The two bit readers of own/pyflate-fast.py. Both hold some bits of the input in
  one integer; what a caller sees is the stream of bits still to be read, taken
  from each byte low bit first (`Bitfield`) or high bit first (`RBitfield`).
 */
module BitReaders {
  import opened Options
  import opened Bits

  ghost predicate IsBytes(s: seq<nat>) {
    forall i :: 0 <= i < |s| ==> s[i] < 256
  }

  ghost function LsbStream(input: seq<nat>): (r: seq<bool>)
    ensures |r| == 8 * |input|
  {
    if input == [] then [] else LsbFirst(input[0], 8) + LsbStream(input[1..])
  }

  ghost function MsbStream(input: seq<nat>): (r: seq<bool>)
    ensures |r| == 8 * |input|
  {
    if input == [] then [] else MsbFirst(input[0], 8) + MsbStream(input[1..])
  }

  lemma {:induction false} LowBits(x: nat, n: nat)
    ensures And(x, Mask(n)) < Pow2(n) && LsbFirst(And(x, Mask(n)), n) == LsbFirst(x, n)
  {
    forall k: nat ensures Bit(And(x, Mask(n)), k) == (k < n && Bit(x, k)) {
      BitOfAnd(x, Mask(n), k);
      BitOfMask(n, k);
    }
    FitsIfNoHighBits(And(x, Mask(n)), n);
  }

  lemma AppendBits(x: nat, y: nat, m: nat, n: nat)
    requires x < Pow2(m) && y < Pow2(n)
    ensures x + Shl(y, m) < Pow2(m + n)
    ensures LsbFirst(x + Shl(y, m), m + n) == LsbFirst(x, m) + LsbFirst(y, n)
    ensures MsbFirst(x + Shl(y, m), m + n) == MsbFirst(y, n) + MsbFirst(x, m)
  {
    var z := x + Shl(y, m);
    forall k: nat ensures Bit(z, k) == if k < m then Bit(x, k) else Bit(y, k - m) {
      BitOfSum(x, y, m, k);
    }
    forall k: nat | m + n <= k ensures !Bit(z, k) {
      BitBeyond(y, n, k - m);
    }
    FitsIfNoHighBits(z, m + n);
    forall k | 0 <= k < m + n ensures LsbFirst(z, m + n)[k] == (LsbFirst(x, m) + LsbFirst(y, n))[k] {}
    forall k | 0 <= k < m + n ensures MsbFirst(z, m + n)[k] == (MsbFirst(y, n) + MsbFirst(x, m))[k] {}
  }

  lemma ShrFits(x: nat, m: nat, n: nat)
    requires x < Pow2(m) && n <= m
    ensures Shr(x, n) < Pow2(m - n)
  {
    forall k: nat | m - n <= k ensures !Bit(Shr(x, n), k) {
      BitOfShr(x, n, k);
      BitBeyond(x, m, n + k);
    }
    FitsIfNoHighBits(Shr(x, n), m - n);
  }

  lemma {:induction false} LowBitsDropped(x: nat, m: nat, n: nat)
    requires n <= m
    ensures LsbFirst(Shr(x, n), m - n) == LsbFirst(x, m)[n..]
  {
    forall k: nat ensures Bit(Shr(x, n), k) == Bit(x, n + k) {
      BitOfShr(x, n, k);
    }
  }

  lemma {:induction false} TopBitsKept(x: nat, m: nat, n: nat)
    requires n <= m
    ensures MsbFirst(Shr(x, m - n), n) == MsbFirst(x, m)[..n]
  {
    var top := Shr(x, m - n);
    forall k: nat ensures Bit(top, k) == Bit(x, m - n + k) {
      BitOfShr(x, m - n, k);
    }
  }

  lemma {:induction false} ClearedHigh(x: nat, m: nat, n: nat)
    requires x < Pow2(m + n)
    ensures AndNot(x, Shl(Mask(n), m)) < Pow2(m)
    ensures MsbFirst(AndNot(x, Shl(Mask(n), m)), m) == MsbFirst(x, m + n)[n..]
  {
    var z := AndNot(x, Shl(Mask(n), m));
    forall k: nat ensures Bit(z, k) == (k < m && Bit(x, k)) {
      BitOfAndNot(x, Shl(Mask(n), m), k);
      BitOfShl(Mask(n), m, k);
      if k >= m {
        BitOfMask(n, k - m);
        if k >= m + n {
          BitBeyond(x, m + n, k);
        }
      }
    }
    FitsIfNoHighBits(z, m);
  }

  lemma SameTopBits(x: nat, y: nat, m: nat)
    requires x < Pow2(m) && y < Pow2(m) && x != y
    ensures MsbFirst(x, m) != MsbFirst(y, m)
  {
    var p := MsbFirst(x, m);
    if MsbFirst(y, m) == p {
      ReadingIsUnique(p, x, y);
    }
  }

  /** A bit string cannot begin with one that writes a number its own top bits lie above. */
  lemma {:induction false} TopBitsDiffer(x: nat, m: nat, y: nat, n: nat)
    requires m <= n && x < Pow2(m) && y < Pow2(n) && Shl(x + 1, n - m) <= y
    ensures MsbFirst(x, m) != MsbFirst(y, n)[..m]
  {
    var top := Shr(y, n - m);
    ShrAtLeast(x + 1, y, n - m);
    TopBitsKept(y, n, m);
    ShrFits(y, n, n - m);
    SameTopBits(x, top, m);
  }

  /** Reads each byte from its low bit up (DEFLATE). */
  class Bitfield {
    var input: seq<nat>
    var bits: nat
    var bitfield: nat

    ghost predicate Valid()
      reads this
    {
      bitfield < Pow2(bits) && IsBytes(input)
    }

    /** The bits that have not been read. */
    ghost function Stream(): seq<bool>
      reads this
    {
      LsbFirst(bitfield, bits) + LsbStream(input)
    }

    constructor (data: seq<nat>)
      requires IsBytes(data)
      ensures Valid() && Stream() == LsbStream(data)
    {
      input, bits, bitfield := data, 0, 0;
    }

    /** Takes one more byte into the buffer; fails at the end of the input. */
    method More() returns (ok: bool)
      requires Valid()
      modifies this
      ensures Valid() && Stream() == old(Stream())
      ensures ok <==> old(|Stream()|) >= old(bits) + 8
      ensures bits == old(bits) + if ok then 8 else 0
    {
      if input == [] {
        return false;
      }
      var c := input[0];
      AppendBits(bitfield, c, bits, 8);
      assert LsbStream(input) == LsbFirst(c, 8) + LsbStream(input[1..]);
      bitfield := bitfield + Shl(c, bits);
      bits := bits + 8;
      input := input[1..];
      assert Stream() == old(LsbFirst(bitfield, bits)) + LsbFirst(c, 8) + LsbStream(input);
      return true;
    }

    method NeedBits(n: nat) returns (ok: bool)
      requires Valid()
      modifies this
      ensures Valid() && Stream() == old(Stream())
      ensures ok <==> n <= |Stream()|
      ensures ok ==> n <= bits
    {
      while bits < n
        invariant Valid() && Stream() == old(Stream())
        decreases n - bits
      {
        var more := More();
        if !more {
          return false;
        }
      }
      return true;
    }

    /** The next `n` bits as a number, without consuming them. */
    method SnoopBits(n: nat) returns (r: Option<nat>)
      requires Valid()
      modifies this
      ensures Valid() && Stream() == old(Stream())
      ensures r.None? <==> |Stream()| < n
      ensures r.Some? ==> ReadsLsb(Stream()[..n], r.value)
    {
      if n > bits {
        var ok := NeedBits(n);
        if !ok {
          return None;
        }
      }
      LowBits(bitfield, n);
      assert Stream()[..n] == LsbFirst(bitfield, n);
      return Some(And(bitfield, Mask(n)));
    }

    /** Consumes the next `n` bits. */
    method ReadBits(n: nat) returns (r: Option<nat>)
      requires Valid()
      modifies this
      ensures Valid()
      ensures r.None? <==> old(|Stream()|) < n
      ensures r.None? ==> Stream() == old(Stream())
      ensures r.Some? ==> ReadsLsb(old(Stream())[..n], r.value) && Stream() == old(Stream())[n..]
    {
      if n > bits {
        var ok := NeedBits(n);
        if !ok {
          return None;
        }
      }
      var v := And(bitfield, Mask(n));
      LowBits(bitfield, n);
      assert Stream()[..n] == LsbFirst(bitfield, n);
      ShrFits(bitfield, bits, n);
      LowBitsDropped(bitfield, bits, n);
      bits := bits - n;
      bitfield := Shr(bitfield, n);
      return Some(v);
    }
  }

  /** Reads each byte from its high bit down (bzip2). */
  class RBitfield {
    var input: seq<nat>
    var bits: nat
    var bitfield: nat

    ghost predicate Valid()
      reads this
    {
      bitfield < Pow2(bits) && IsBytes(input)
    }

    ghost function Stream(): seq<bool>
      reads this
    {
      MsbFirst(bitfield, bits) + MsbStream(input)
    }

    constructor (data: seq<nat>)
      requires IsBytes(data)
      ensures Valid() && Stream() == MsbStream(data)
    {
      input, bits, bitfield := data, 0, 0;
    }

    method More() returns (ok: bool)
      requires Valid()
      modifies this
      ensures Valid() && Stream() == old(Stream())
      ensures ok <==> old(|Stream()|) >= old(bits) + 8
      ensures bits == old(bits) + if ok then 8 else 0
    {
      if input == [] {
        return false;
      }
      var c := input[0];
      AppendBits(c, bitfield, 8, bits);
      assert MsbStream(input) == MsbFirst(c, 8) + MsbStream(input[1..]);
      bitfield := Shl(bitfield, 8) + c;
      bits := bits + 8;
      input := input[1..];
      assert Stream() == old(MsbFirst(bitfield, bits)) + MsbFirst(c, 8) + MsbStream(input);
      return true;
    }

    method NeedBits(n: nat) returns (ok: bool)
      requires Valid()
      modifies this
      ensures Valid() && Stream() == old(Stream())
      ensures ok <==> n <= |Stream()|
      ensures ok ==> n <= bits
    {
      while bits < n
        invariant Valid() && Stream() == old(Stream())
        decreases n - bits
      {
        var more := More();
        if !more {
          return false;
        }
      }
      return true;
    }

    method SnoopBits(n: nat) returns (r: Option<nat>)
      requires Valid()
      modifies this
      ensures Valid() && Stream() == old(Stream())
      ensures r.None? <==> |Stream()| < n
      ensures r.Some? ==> ReadsMsb(Stream()[..n], r.value)
    {
      if n > bits {
        var ok := NeedBits(n);
        if !ok {
          return None;
        }
      }
      TopBits(bitfield, bits, n);
      assert Stream()[..n] == MsbFirst(bitfield, bits)[..n];
      return Some(And(Shr(bitfield, bits - n), Mask(n)));
    }

    method ReadBits(n: nat) returns (r: Option<nat>)
      requires Valid()
      modifies this
      ensures Valid()
      ensures r.None? <==> old(|Stream()|) < n
      ensures r.None? ==> Stream() == old(Stream())
      ensures r.Some? ==> ReadsMsb(old(Stream())[..n], r.value) && Stream() == old(Stream())[n..]
    {
      if n > bits {
        var ok := NeedBits(n);
        if !ok {
          return None;
        }
      }
      var v := And(Shr(bitfield, bits - n), Mask(n));
      TopBits(bitfield, bits, n);
      assert Stream()[..n] == MsbFirst(bitfield, bits)[..n];
      ClearedHigh(bitfield, bits - n, n);
      bits := bits - n;
      bitfield := AndNot(bitfield, Shl(Mask(n), bits));
      return Some(v);
    }
  }

  lemma {:induction false} TopBits(x: nat, m: nat, n: nat)
    requires x < Pow2(m) && n <= m
    ensures ReadsMsb(MsbFirst(x, m)[..n], And(Shr(x, m - n), Mask(n)))
  {
    var y := Shr(x, m - n);
    LowBits(y, n);
    TopBitsKept(x, m, n);
    forall k | 0 <= k < n ensures MsbFirst(And(y, Mask(n)), n)[k] == MsbFirst(y, n)[k] {
      assert LsbFirst(And(y, Mask(n)), n)[n - 1 - k] == LsbFirst(y, n)[n - 1 - k];
    }
  }
}
