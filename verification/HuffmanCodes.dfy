/**
  Huffman decoding of own/pyflate-fast.py from the list of code lengths as it is given: the
  Kraft sum does not depend on the order, so a list within it can be written and read back.
 */
module HuffmanCodes {

  import opened Sorting
  import opened Bits
  import opened BitReaders
  import opened Huffman

  /** 2^-bits in units of 2^-top; a code of length zero is not used. */
  function Unit(bits: nat, top: nat): nat {
    if 0 < bits <= top then Shl(1, top - bits) else 0
  }

  /** The Kraft sum of a list of lengths in any order, in units of 2^-top. */
  function Units(lens: seq<nat>, top: nat): nat {
    if lens == [] then 0 else Units(lens[..|lens| - 1], top) + Unit(lens[|lens| - 1], top)
  }

  ghost predicate WithinKraft(lens: seq<nat>, top: nat) {
    (forall i :: 0 <= i < |lens| ==> lens[i] <= top) && Units(lens, top) <= Pow2(top)
  }

  function BitsOf(c: CodeLength): nat {
    c.bits
  }

  lemma {:induction false} UnitsAppend(a: seq<nat>, b: seq<nat>, top: nat)
    ensures Units(a + b, top) == Units(a, top) + Units(b, top)
  {
    if b == [] {
      assert a + b == a;
    } else {
      UnitsAppend(a, b[..|b| - 1], top);
      assert (a + b)[..|a + b| - 1] == a + b[..|b| - 1];
    }
  }

  lemma UnitsWithout(s: seq<nat>, m: nat, top: nat)
    requires m < |s|
    ensures Units(s, top) == Units(s[..m] + s[m + 1..], top) + Unit(s[m], top)
  {
    var a, x, b := s[..m], [s[m]], s[m + 1..];
    assert s == a + x + b;
    UnitsAppend(a + x, b, top);
    UnitsAppend(a, x, top);
    UnitsAppend(a, b, top);
    assert x[..0] == [];
  }

  /** The order does not matter. */
  lemma {:induction false} UnitsReordered(s: seq<nat>, t: seq<nat>, top: nat)
    requires multiset(s) == multiset(t)
    ensures Units(s, top) == Units(t, top)
  {
    assert |s| == |multiset(s)| && |t| == |multiset(t)|;
    if s != [] {
      var m := IndexOfFirst(s, t);
      UnitsReordered(s[..0] + s[0 + 1..], t[..m] + t[m + 1..], top);
      UnitsWithout(s, 0, top);
      UnitsWithout(t, m, top);
    }
  }

  /** Codes of length zero add nothing. */
  lemma {:induction false} UnitsOfUsed(lengths: seq<nat>, i: nat, top: nat)
    requires i <= |lengths|
    ensures Units(Map(BitsOf, Used(lengths, i)), top) == Units(lengths[i..], top)
    decreases |lengths| - i
  {
    if i < |lengths| {
      UnitsOfUsed(lengths, i + 1, top);
      var rest := Used(lengths, i + 1);
      assert lengths[i..] == [lengths[i]] + lengths[i + 1..];
      UnitsAppend([lengths[i]], lengths[i + 1..], top);
      assert [lengths[i]][..0] == [];
      if lengths[i] > 0 {
        assert Map(BitsOf, Used(lengths, i)) == [lengths[i]] + Map(BitsOf, rest);
        UnitsAppend([lengths[i]], Map(BitsOf, rest), top);
      } else {
        assert Used(lengths, i) == rest;
      }
    }
  }

  lemma {:induction false} KraftSumIsUnits(lens: seq<nat>, n: nat, top: nat)
    requires Lengths(lens) && n <= |lens| && (n > 0 ==> lens[n - 1] <= top)
    ensures KraftSum(lens, n, top) == Units(lens[..n], top)
  {
    if n > 0 {
      KraftSumIsUnits(lens, n - 1, top);
      assert lens[..n][..n - 1] == lens[..n - 1];
    }
  }

  /** Finer units. */
  lemma {:induction false} KraftSumRaised(lens: seq<nat>, n: nat, low: nat, top: nat)
    requires Lengths(lens) && n <= |lens| && (n > 0 ==> lens[n - 1] <= low) && low <= top
    ensures KraftSum(lens, n, top) == Shl(KraftSum(lens, n, low), top - low)
  {
    if n == 0 {
      ShlZero(top - low);
    } else {
      KraftSumRaised(lens, n - 1, low, top);
      ShlAdd(KraftSum(lens, n - 1, low), Shl(1, low - lens[n - 1]), top - low);
      ShlShl(1, low - lens[n - 1], top - low);
    }
  }

  lemma KraftInUnits(lens: seq<nat>, top: nat)
    requires Lengths(lens) && forall i :: 0 <= i < |lens| ==> lens[i] <= top
    ensures Kraft(lens) <==> Units(lens, top) <= Pow2(top)
  {
    assert lens[..|lens|] == lens;
    if lens != [] {
      var low := lens[|lens| - 1];
      var sum := KraftSum(lens, |lens|, low);
      KraftSumIsUnits(lens, |lens|, top);
      KraftSumRaised(lens, |lens|, low, top);
      ShlIsPow2(low);
      ShlIsPow2(top);
      ShlShl(1, low, top - low);
      ShlMonotone(Pow2(low), sum, top - low);
    }
  }

  /** The sorted table meets Kraft's inequality exactly when the codes do in any order. */
  lemma KraftOfCodes(codes: seq<CodeLength>, table: seq<HuffmanLength>, top: nat)
    requires multiset(Map(LengthOf, table)) == multiset(codes) && Lengths(LensOf(table))
    requires forall c :: c in codes ==> c.bits <= top
    ensures Kraft(LensOf(table)) <==> Units(Map(BitsOf, codes), top) <= Pow2(top)
  {
    var sorted := Map(LengthOf, table);
    assert LensOf(table) == Map(BitsOf, sorted);
    MapMultiset(BitsOf, sorted, codes);
    UnitsReordered(Map(BitsOf, sorted), Map(BitsOf, codes), top);
    forall i | 0 <= i < |table| ensures LensOf(table)[i] <= top {
      assert sorted[i] in multiset(sorted);
      assert sorted[i] in codes;
    }
    KraftInUnits(LensOf(table), top);
  }

  /** The codes in use, by length and then by value: the order of the table. */
  ghost function Canonical(lengths: seq<nat>): (r: seq<CodeLength>)
    ensures Sorted(r, Before) && multiset(r) == multiset(Used(lengths, 0))
  {
    Sort(Used(lengths, 0), Before)
  }

  lemma {:induction false} UsedBits(lengths: seq<nat>, i: nat)
    requires i <= |lengths|
    ensures forall c :: c in Used(lengths, i) ==> c.bits > 0 && c.bits in lengths
    decreases |lengths| - i
  {
    if i < |lengths| {
      UsedBits(lengths, i + 1);
    }
  }

  /** The lengths in the order of the table. */
  ghost function CanonicalLens(lengths: seq<nat>): (r: seq<nat>)
    ensures Lengths(r)
  {
    CanonicalIsLengths(lengths);
    Map(BitsOf, Canonical(lengths))
  }

  lemma CanonicalIsLengths(lengths: seq<nat>)
    ensures Lengths(Map(BitsOf, Canonical(lengths)))
  {
    UsedBits(lengths, 0);
    SortedByBits(Canonical(lengths), Used(lengths, 0));
  }

  /** The constructor's table has the codes in canonical order. */
  lemma TableIsCanonical(lengths: seq<nat>, table: seq<HuffmanLength>)
    requires multiset(Map(LengthOf, table)) == multiset(Used(lengths, 0)) && Sorted(Map(LengthOf, table), Before)
    ensures Map(LengthOf, table) == Canonical(lengths) && LensOf(table) == CanonicalLens(lengths)
  {
    hide Used, Canonical;
    SortedIsUnique(Map(LengthOf, table), Canonical(lengths), Before);
  }

  lemma TableWithinKraft(lengths: seq<nat>, table: seq<HuffmanLength>, top: nat)
    requires WithinKraft(lengths, top) && Lengths(LensOf(table))
    requires multiset(Map(LengthOf, table)) == multiset(Used(lengths, 0))
    ensures Kraft(LensOf(table))
  {
    hide Used, Kraft, Units;
    UsedBits(lengths, 0);
    KraftOfCodes(Used(lengths, 0), table, top);
    UnitsOfUsed(lengths, 0, top);
    assert lengths[0..] == lengths;
  }

  /** The codes that were written, by their places in the canonical order. */
  ghost function Chosen(lengths: seq<nat>, entries: seq<nat>): (r: seq<nat>)
    requires Entries(|Canonical(lengths)|, entries)
    ensures |r| == |entries|
  {
    seq(|entries|, m requires 0 <= m < |entries| => Canonical(lengths)[entries[m]].code)
  }

  lemma {:induction false} CodesAreChosen(lengths: seq<nat>, table: seq<HuffmanLength>, entries: seq<nat>, m: nat)
    requires Map(LengthOf, table) == Canonical(lengths) && Entries(|table|, entries) && m <= |entries|
    ensures |Canonical(lengths)| == |table| && CodesOf(table, entries, m) == Chosen(lengths, entries)[..m]
  {
    if m > 0 {
      CodesAreChosen(lengths, table, entries, m - 1);
      assert Map(LengthOf, table)[entries[m - 1]] == LengthOf(table[entries[m - 1]]);
    }
  }

  /** The table that a list of lengths within Kraft's inequality gives, with its numbers. */
  method Prepare(lengths: seq<nat>, ghost top: nat) returns (t: HuffmanTable)
    requires WithinKraft(lengths, top)
    ensures fresh(t) && t.Valid() && t.Numbered() && Kraft(t.Lens())
    ensures Map(LengthOf, t.table) == Canonical(lengths) && t.Lens() == CanonicalLens(lengths)
  {
    t := new HuffmanTable.Ordered(lengths);
    TableIsCanonical(lengths, t.table);
    TableWithinKraft(lengths, t.table, top);
    hide WithinKraft, Kraft;
    t.PopulateHuffmanSymbols();
  }

  /**
    For every list of lengths within Kraft's inequality, in any order: what is written with its
    canonical code comes back, low bit first, and the bits after it are left.
   */
  method ReadBackReversed(lengths: seq<nat>, ghost top: nat, field: Bitfield, ghost entries: seq<nat>, n: nat,
      ghost rest: seq<bool>)
    returns (codes: seq<nat>)
    requires WithinKraft(lengths, top) && field.Valid()
    requires n == |entries| && Entries(|Canonical(lengths)|, entries)
    requires field.Stream() == Encode(CanonicalLens(lengths), entries, 0) + rest
    modifies field
    ensures field.Valid() && field.Stream() == rest
    ensures codes == Chosen(lengths, entries)
  {
    hide WithinKraft, Kraft;
    var t := Prepare(lengths, top);
    CodesAreChosen(lengths, t.table, entries, n);
    codes := t.ReadBackReversed(field, entries, n, rest);
  }

  /** The same, high bit first. */
  method ReadBack(lengths: seq<nat>, ghost top: nat, field: RBitfield, ghost entries: seq<nat>, n: nat,
      ghost rest: seq<bool>)
    returns (codes: seq<nat>)
    requires WithinKraft(lengths, top) && field.Valid()
    requires n == |entries| && Entries(|Canonical(lengths)|, entries)
    requires field.Stream() == Encode(CanonicalLens(lengths), entries, 0) + rest
    modifies field
    ensures field.Valid() && field.Stream() == rest
    ensures codes == Chosen(lengths, entries)
  {
    hide WithinKraft, Kraft;
    var t := Prepare(lengths, top);
    CodesAreChosen(lengths, t.table, entries, n);
    codes := t.ReadBack(field, entries, n, rest);
  }
}
