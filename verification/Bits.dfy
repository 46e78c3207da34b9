/**
  Natural numbers as bit strings: the shifts and masks that Python applies to
  unbounded integers, and the two orders in which the bit readers take bits.
 */
module Bits {

  /** x << n */
  function Shl(x: nat, n: nat): nat {
    if n == 0 then x else 2 * Shl(x, n - 1)
  }

  /** x >> n */
  function Shr(x: nat, n: nat): nat {
    if n == 0 then x else Shr(x / 2, n - 1)
  }

  /** x & y */
  function And(x: nat, y: nat): nat {
    if x == 0 || y == 0 then 0
    else 2 * And(x / 2, y / 2) + if x % 2 == 1 && y % 2 == 1 then 1 else 0
  }

  /** x | y */
  function Or(x: nat, y: nat): nat {
    if x == 0 && y == 0 then 0
    else 2 * Or(x / 2, y / 2) + if x % 2 == 1 || y % 2 == 1 then 1 else 0
  }

  /** x & ~y */
  function AndNot(x: nat, y: nat): nat {
    if x == 0 then 0
    else 2 * AndNot(x / 2, y / 2) + if x % 2 == 1 && y % 2 == 0 then 1 else 0
  }

  function Pow2(n: nat): (r: nat)
    ensures r > 0
  {
    if n == 0 then 1 else 2 * Pow2(n - 1)
  }

  /** (1 << n) - 1 */
  function Mask(n: nat): nat {
    Pow2(n) - 1
  }

  function Bit(x: nat, k: nat): bool {
    if k == 0 then x % 2 == 1 else Bit(x / 2, k - 1)
  }

  lemma {:induction false} ShlIsPow2(n: nat)
    ensures Shl(1, n) == Pow2(n)
  {
    if n > 0 {
      ShlIsPow2(n - 1);
    }
  }

  lemma {:induction false} ShlAdd(x: nat, y: nat, n: nat)
    ensures Shl(x + y, n) == Shl(x, n) + Shl(y, n)
  {
    if n > 0 {
      ShlAdd(x, y, n - 1);
    }
  }

  lemma {:induction false} ShlShl(x: nat, m: nat, n: nat)
    ensures Shl(Shl(x, m), n) == Shl(x, m + n)
  {
    if n > 0 {
      ShlShl(x, m, n - 1);
    }
  }

  lemma {:induction false} ShlMonotone(x: nat, y: nat, n: nat)
    ensures x < y <==> Shl(x, n) < Shl(y, n)
  {
    if n > 0 {
      ShlMonotone(x, y, n - 1);
    }
  }

  /** Shifting right by `n` is at least `x` exactly from x << n on. */
  lemma {:induction false} ShrAtLeast(x: nat, y: nat, n: nat)
    ensures x <= Shr(y, n) <==> Shl(x, n) <= y
  {
    if n > 0 {
      ShrAtLeast(x, y / 2, n - 1);
    }
  }

  lemma {:induction false} BitOfShr(x: nat, n: nat, k: nat)
    ensures Bit(Shr(x, n), k) == Bit(x, n + k)
  {
    if n > 0 {
      BitOfShr(x / 2, n - 1, k);
    }
  }

  lemma {:induction false} BitOfShl(x: nat, n: nat, k: nat)
    ensures Bit(Shl(x, n), k) == (k >= n && Bit(x, k - n))
  {
    if n > 0 && k > 0 {
      BitOfShl(x, n - 1, k - 1);
    }
  }

  lemma {:induction false} BitOfZero(k: nat)
    ensures !Bit(0, k)
  {
    if k > 0 {
      BitOfZero(k - 1);
    }
  }

  lemma {:induction false} BitOfPow2(n: nat, k: nat)
    ensures Bit(Pow2(n), k) == (n == k)
  {
    if n == 0 {
      if k > 0 {
        BitOfZero(k - 1);
      }
    } else if k > 0 {
      BitOfPow2(n - 1, k - 1);
    }
  }

  lemma {:induction false} BitOfMask(n: nat, k: nat)
    ensures Bit(Mask(n), k) == (k < n)
  {
    if n == 0 {
      BitOfZero(k);
    } else if k > 0 {
      BitOfMask(n - 1, k - 1);
    }
  }

  lemma {:induction false} BitOfAnd(x: nat, y: nat, k: nat)
    ensures Bit(And(x, y), k) == (Bit(x, k) && Bit(y, k))
  {
    if x == 0 || y == 0 {
      BitOfZero(k);
    } else if k > 0 {
      BitOfAnd(x / 2, y / 2, k - 1);
    }
  }

  lemma {:induction false} BitOfOr(x: nat, y: nat, k: nat)
    ensures Bit(Or(x, y), k) == (Bit(x, k) || Bit(y, k))
  {
    if x == 0 && y == 0 {
      BitOfZero(k);
    } else if k > 0 {
      BitOfOr(x / 2, y / 2, k - 1);
    }
  }

  lemma {:induction false} BitOfAndNot(x: nat, y: nat, k: nat)
    ensures Bit(AndNot(x, y), k) == (Bit(x, k) && !Bit(y, k))
  {
    if x == 0 {
      BitOfZero(k);
    } else if k > 0 {
      BitOfAndNot(x / 2, y / 2, k - 1);
    }
  }

  /** Adding a number shifted past `x` puts its bits after those of `x`. */
  lemma {:induction false} BitOfSum(x: nat, y: nat, n: nat, k: nat)
    requires x < Pow2(n)
    ensures Bit(x + Shl(y, n), k) == if k < n then Bit(x, k) else Bit(y, k - n)
  {
    if n > 0 {
      assert (x + Shl(y, n)) / 2 == x / 2 + Shl(y, n - 1);
      assert (x + Shl(y, n)) % 2 == x % 2;
      if k > 0 {
        BitOfSum(x / 2, y, n - 1, k - 1);
      }
    }
  }

  lemma {:induction false} BitBeyond(x: nat, n: nat, k: nat)
    requires x < Pow2(n) && n <= k
    ensures !Bit(x, k)
  {
    if n == 0 {
      BitOfZero(k);
    } else {
      BitBeyond(x / 2, n - 1, k - 1);
    }
  }

  /** Numbers with the same bits are equal. */
  lemma {:induction false} SameBits(x: nat, y: nat)
    requires forall k :: Bit(x, k) == Bit(y, k)
    ensures x == y
    decreases x + y
  {
    if x + y > 0 {
      forall k: nat ensures Bit(x / 2, k) == Bit(y / 2, k) {
        assert Bit(x, k + 1) == Bit(y, k + 1);
      }
      assert Bit(x, 0) == Bit(y, 0);
      SameBits(x / 2, y / 2);
    }
  }

  lemma {:induction false} FitsIfNoHighBits(x: nat, n: nat)
    requires forall k :: n <= k ==> !Bit(x, k)
    ensures x < Pow2(n)
  {
    if n == 0 {
      forall k: nat ensures Bit(x, k) == Bit(0, k) {
        BitOfZero(k);
      }
      SameBits(x, 0);
    } else {
      forall k: nat | n - 1 <= k ensures !Bit(x / 2, k) {
        assert !Bit(x, k + 1);
      }
      FitsIfNoHighBits(x / 2, n - 1);
    }
  }

  // ---------------------------------------------------------------------
  // Bit strings
  // ---------------------------------------------------------------------

  /** The `n` low bits of `x`, least significant first. */
  function LsbFirst(x: nat, n: nat): (r: seq<bool>)
    ensures |r| == n
    ensures forall k :: 0 <= k < n ==> r[k] == Bit(x, k)
  {
    seq(n, k requires 0 <= k < n => Bit(x, k))
  }

  /** The `n` low bits of `x`, most significant first. */
  function MsbFirst(x: nat, n: nat): (r: seq<bool>)
    ensures |r| == n
    ensures forall k :: 0 <= k < n ==> r[k] == Bit(x, n - 1 - k)
  {
    seq(n, k requires 0 <= k < n => Bit(x, n - 1 - k))
  }

  /** `x` is the number written by `bits`, least significant first. */
  ghost predicate ReadsLsb(bits: seq<bool>, x: nat) {
    x < Pow2(|bits|) && LsbFirst(x, |bits|) == bits
  }

  /** `x` is the number written by `bits`, most significant first. */
  ghost predicate ReadsMsb(bits: seq<bool>, x: nat) {
    x < Pow2(|bits|) && MsbFirst(x, |bits|) == bits
  }

  /** A bit string writes at most one number in either order. */
  lemma ReadingIsUnique(bits: seq<bool>, x: nat, y: nat)
    requires (ReadsLsb(bits, x) && ReadsLsb(bits, y)) || (ReadsMsb(bits, x) && ReadsMsb(bits, y))
    ensures x == y
  {
    var n := |bits|;
    forall k: nat ensures Bit(x, k) == Bit(y, k) {
      if k < n {
        assert ReadsLsb(bits, x) ==> LsbFirst(x, n)[k] == LsbFirst(y, n)[k];
        assert ReadsMsb(bits, x) ==> MsbFirst(x, n)[n - 1 - k] == MsbFirst(y, n)[n - 1 - k];
      } else {
        BitBeyond(x, n, k);
        BitBeyond(y, n, k);
      }
    }
    SameBits(x, y);
  }

  // ---------------------------------------------------------------------
  // reverse_bits
  // ---------------------------------------------------------------------

  /** Mirrors the low `n` bits, exchanging two of them per round. */
  method ReverseBits(v: nat, n: nat) returns (z: nat)
    requires n > 0
    ensures z < Pow2(n)
    ensures LsbFirst(z, n) == MsbFirst(v, n)
  {
    var a, b := Pow2(0), Pow2(n - 1);
    z := 0;
    ghost var t: nat := 0;
    var i := n - 1;
    forall k: nat ensures !Bit(0, k) {
      BitOfZero(k);
    }
    while i >= 0
      invariant i == n - 1 - 2 * t && -2 <= i
      invariant i >= 0 ==> a == Pow2(t) && b == Pow2(n - 1 - t)
      invariant forall k :: 0 <= k < n ==> Bit(z, k) == ((k < t || n - 1 - k < t) && Bit(v, n - 1 - k))
      invariant forall k :: n <= k ==> !Bit(z, k)
      decreases i + 2
    {
      var z1 := Or(z, And(Shr(v, i), a));
      var z2 := Or(z1, And(Shl(v, i), b));
      forall k: nat
        ensures Bit(z2, k) == (Bit(z, k) || (k == t && Bit(v, n - 1 - t)) || (k == n - 1 - t && Bit(v, t)))
      {
        BitOfOr(z, And(Shr(v, i), a), k);
        BitOfAnd(Shr(v, i), a, k);
        BitOfShr(v, i, k);
        BitOfPow2(t, k);
        BitOfOr(z1, And(Shl(v, i), b), k);
        BitOfAnd(Shl(v, i), b, k);
        BitOfShl(v, i, k);
        BitOfPow2(n - 1 - t, k);
      }
      z := z2;
      assert Shl(a, 1) == 2 * Shl(a, 0) && Shr(b, 1) == Shr(b / 2, 0);
      a := Shl(a, 1);
      b := Shr(b, 1);
      t := t + 1;
      i := i - 2;
    }
    FitsIfNoHighBits(z, n);
    assert LsbFirst(z, n) == MsbFirst(v, n);
  }
}
