/**
  The Zobrist hash of own/go.py with its history.
 */
module GoZobrist {

  import opened GoRules

  /** A hash value; the strings are drawn below 2^63. */
  datatype Hash = Hash(v: bv64)

  type Strings = seq<seq<Hash>>

  function Xor(a: Hash, b: Hash): Hash {
    Hash(a.v ^ b.v)
  }

  lemma XorCancels(a: Hash, b: Hash)
    ensures Xor(Xor(a, b), b) == a
  {}

  lemma XorSwaps(a: Hash, b: Hash, c: Hash)
    ensures Xor(Xor(a, b), c) == Xor(Xor(a, c), b)
  {}

  predicate Fits(z: Strings, color: Colors) {
    && |z| == |color|
    && forall p :: 0 <= p < |z| ==> |z[p]| == 3 && color[p] <= 2
  }

  /** The strings of the first `n` squares in their present colours, added up. */
  function HashUpTo(z: Strings, color: Colors, n: nat): Hash
    requires Fits(z, color) && n <= |z|
  {
    if n == 0 then Hash(0) else Xor(HashUpTo(z, color, n - 1), z[n - 1][color[n - 1]])
  }

  function HashOf(z: Strings, color: Colors): Hash
    requires Fits(z, color)
  {
    HashUpTo(z, color, |z|)
  }

  lemma {:induction false} HashElsewhere(z: Strings, color: Colors, p: nat, c: nat, n: nat)
    requires Fits(z, color) && n <= p < |z| && c <= 2
    ensures HashUpTo(z, color[p := c], n) == HashUpTo(z, color, n)
  {
    hide Xor;
    if n > 0 {
      HashElsewhere(z, color, p, c, n - 1);
    }
  }

  lemma {:induction false} HashRecoloured(z: Strings, color: Colors, p: nat, c: nat, n: nat)
    requires Fits(z, color) && p < n <= |z| && c <= 2
    ensures HashUpTo(z, color[p := c], n) == Xor(Xor(HashUpTo(z, color, n), z[p][color[p]]), z[p][c])
  {
    hide Xor;
    var h := HashUpTo(z, color, n - 1);
    if p == n - 1 {
      HashElsewhere(z, color, p, c, n - 1);
      XorCancels(h, z[p][color[p]]);
    } else {
      HashRecoloured(z, color, p, c, n - 1);
      var last := z[n - 1][color[n - 1]];
      XorSwaps(h, last, z[p][color[p]]);
      XorSwaps(Xor(h, z[p][color[p]]), last, z[p][c]);
    }
  }

  class ZobristHash {
    const strings: Strings
    var hash: Hash
    var hashSet: set<Hash>

    /** All squares are empty: the loop adds their strings one by one. */
    constructor (strings: Strings, ghost color: Colors)
      requires Fits(strings, color)
      requires forall p :: 0 <= p < |color| ==> color[p] == EMPTY
      ensures this.strings == strings
      ensures hash == HashOf(strings, color) && hashSet == {hash}
    {
      this.strings := strings;
      var h := Hash(0);
      for p := 0 to |strings|
        invariant h == HashUpTo(strings, color, p)
      {
        h := Xor(h, strings[p][EMPTY]);
      }
      hash := h;
      hashSet := {h};
    }

    /** The square `p` changes from `color[p]` to `c`. */
    method Update(p: nat, from: nat, c: nat, ghost color: Colors)
      requires Fits(strings, color) && p < |color| && from == color[p] && c <= 2
      requires hash == HashOf(strings, color)
      modifies this`hash
      ensures hash == HashOf(strings, color[p := c])
    {
      HashRecoloured(strings, color, p, c, |strings|);
      hide Xor, HashUpTo;
      hash := Xor(hash, strings[p][from]);
      hash := Xor(hash, strings[p][c]);
    }

    method Add()
      modifies this`hashSet
      ensures hashSet == old(hashSet) + {hash}
    {
      hashSet := hashSet + {hash};
    }

    method Dupe() returns (r: bool)
      ensures r == (hash in hashSet)
    {
      r := hash in hashSet;
    }
  }
}
