/**
  Canonical Huffman codes of own/pyflate-fast.py: how the table is built and
  numbered, why the numbers fit and no code is a prefix of another, and that both
  bit readers find again whatever symbols were written.
 */
module Huffman {
  import opened Options
  import opened Sorting
  import opened Bits
  import opened BitReaders

  /** Code lengths in table order: non-zero and non-decreasing. */
  ghost predicate Lengths(lens: seq<nat>) {
    && (forall i :: 0 <= i < |lens| ==> lens[i] > 0)
    && forall i, j :: 0 <= i <= j < |lens| ==> lens[i] <= lens[j]
  }

  /** The number given to entry `i`. */
  ghost function Symbol(lens: seq<nat>, i: nat): nat
    requires Lengths(lens) && i < |lens|
  {
    if i == 0 then 0 else Shl(Symbol(lens, i - 1) + 1, lens[i] - lens[i - 1])
  }

  /** The bits that stand for entry `i`, in the order in which they are stored. */
  ghost function CodeBits(lens: seq<nat>, i: nat): (r: seq<bool>)
    requires Lengths(lens) && i < |lens|
    ensures |r| == lens[i]
  {
    MsbFirst(Symbol(lens, i), lens[i])
  }

  /** The sum of 2^-length over the first `n` entries, in units of 2^-top. */
  ghost function KraftSum(lens: seq<nat>, n: nat, top: nat): nat
    requires Lengths(lens) && n <= |lens| && (n > 0 ==> lens[n - 1] <= top)
  {
    if n == 0 then 0 else KraftSum(lens, n - 1, top) + Shl(1, top - lens[n - 1])
  }

  /** The sum of 2^-length over all entries is at most one. */
  ghost predicate Kraft(lens: seq<nat>)
    requires Lengths(lens)
  {
    lens != [] ==> KraftSum(lens, |lens|, lens[|lens| - 1]) <= Pow2(lens[|lens| - 1])
  }

  /** (symbol + 1) / 2^length is the partial Kraft sum. */
  lemma {:induction false} SymbolIsKraftSum(lens: seq<nat>, i: nat, top: nat)
    requires Lengths(lens) && i < |lens| && lens[i] <= top
    ensures Shl(Symbol(lens, i) + 1, top - lens[i]) == KraftSum(lens, i + 1, top)
  {
    if i == 0 {
      assert KraftSum(lens, 1, top) == KraftSum(lens, 0, top) + Shl(1, top - lens[0]);
    } else {
      SymbolIsKraftSum(lens, i - 1, top);
      ShlAdd(Symbol(lens, i), 1, top - lens[i]);
      ShlShl(Symbol(lens, i - 1) + 1, lens[i] - lens[i - 1], top - lens[i]);
    }
  }

  /** A later code starts beyond everything that starts with an earlier one. */
  lemma {:induction false} SymbolGap(lens: seq<nat>, i: nat, j: nat)
    requires Lengths(lens) && i < j < |lens|
    ensures Shl(Symbol(lens, i) + 1, lens[j] - lens[i]) <= Symbol(lens, j)
    decreases j
  {
    var prev := Symbol(lens, j - 1) + 1;
    if i < j - 1 {
      SymbolGap(lens, i, j - 1);
      ShlShl(Symbol(lens, i) + 1, lens[j - 1] - lens[i], lens[j] - lens[j - 1]);
      ShlMonotone(Shl(Symbol(lens, i) + 1, lens[j - 1] - lens[i]), prev, lens[j] - lens[j - 1]);
    }
  }

  /** Every code fits its length if and only if the lengths satisfy Kraft's inequality. */
  lemma CodesFitIffKraft(lens: seq<nat>)
    requires Lengths(lens)
    ensures (forall i :: 0 <= i < |lens| ==> Symbol(lens, i) < Pow2(lens[i])) <==> Kraft(lens)
  {
    if lens != [] {
      var last := |lens| - 1;
      SymbolIsKraftSum(lens, last, lens[last]);
      if Kraft(lens) {
        forall i | 0 <= i < |lens| ensures Symbol(lens, i) < Pow2(lens[i]) {
          if i < last {
            var d := lens[last] - lens[i];
            SymbolGap(lens, i, last);
            ShlIsPow2(lens[i]);
            ShlIsPow2(lens[last]);
            ShlShl(1, lens[i], d);
            ShlMonotone(Symbol(lens, i) + 1, Pow2(lens[i]), d);
            ShlMonotone(Pow2(lens[i]), Symbol(lens, i) + 1, d);
          }
        }
      }
    }
  }

  /** No code is a prefix of another one. */
  lemma PrefixFree(lens: seq<nat>, i: nat, j: nat)
    requires Lengths(lens) && Kraft(lens) && i < |lens| && j < |lens| && i != j
    ensures !(CodeBits(lens, i) <= CodeBits(lens, j))
  {
    CodesFitIffKraft(lens);
    if CodeBits(lens, i) <= CodeBits(lens, j) {
      if i < j {
        LaterCodeDiffers(lens, i, j);
      } else {
        LaterCodeDiffers(lens, j, i);
      }
    }
  }

  lemma {:induction false} LaterCodeDiffers(lens: seq<nat>, i: nat, j: nat)
    requires Lengths(lens) && i < j < |lens|
    requires Symbol(lens, i) < Pow2(lens[i]) && Symbol(lens, j) < Pow2(lens[j])
    ensures CodeBits(lens, i) != CodeBits(lens, j)[..lens[i]]
  {
    SymbolGap(lens, i, j);
    TopBitsDiffer(Symbol(lens, i), lens[i], Symbol(lens, j), lens[j]);
  }

  // ---------------------------------------------------------------------
  // The numbering of section 3.2.2 of RFC 1951
  // ---------------------------------------------------------------------

  /** Number of codes of length `b` among the first `n`. */
  ghost function CountOf(lens: seq<nat>, n: nat, b: nat): nat
    requires n <= |lens|
  {
    if n == 0 then 0 else CountOf(lens, n - 1, b) + if lens[n - 1] == b then 1 else 0
  }

  /** The smallest code of length `b`: next_code[b] of the standard. */
  ghost function FirstCode(lens: seq<nat>, b: nat): nat {
    if b == 0 then 0 else 2 * (FirstCode(lens, b - 1) + CountOf(lens, |lens|, b - 1))
  }

  lemma {:induction false} CountAbsent(lens: seq<nat>, m: nat, n: nat, b: nat)
    requires m <= n <= |lens| && forall k :: m <= k < n ==> lens[k] != b
    ensures CountOf(lens, n, b) == CountOf(lens, m, b)
    decreases n
  {
    if m < n {
      CountAbsent(lens, m, n - 1, b);
    }
  }

  /** Lengths that no code has only double the first code. */
  lemma {:induction false} FirstCodeGap(lens: seq<nat>, i: nat, b: nat)
    requires Lengths(lens) && 0 < i < |lens| && lens[i - 1] < b <= lens[i]
    ensures FirstCode(lens, b)
      == Shl(FirstCode(lens, lens[i - 1]) + CountOf(lens, i, lens[i - 1]), b - lens[i - 1])
    decreases b
  {
    if b == lens[i - 1] + 1 {
      CountAbsent(lens, i, |lens|, lens[i - 1]);
      assert Shl(FirstCode(lens, lens[i - 1]) + CountOf(lens, i, lens[i - 1]), 1)
          == 2 * Shl(FirstCode(lens, lens[i - 1]) + CountOf(lens, i, lens[i - 1]), 0);
    } else {
      FirstCodeGap(lens, i, b - 1);
      CountAbsent(lens, 0, |lens|, b - 1);
    }
  }

  lemma {:induction false} FirstCodeZero(lens: seq<nat>, b: nat)
    requires Lengths(lens) && (lens != [] ==> b <= lens[0])
    ensures FirstCode(lens, b) == 0
  {
    if b > 0 {
      FirstCodeZero(lens, b - 1);
      CountAbsent(lens, 0, |lens|, b - 1);
    }
  }

  /** The table numbers its entries as the standard does: consecutively within each length. */
  lemma {:induction false} SymbolIsStandard(lens: seq<nat>, i: nat)
    requires Lengths(lens) && i < |lens|
    ensures Symbol(lens, i) == FirstCode(lens, lens[i]) + CountOf(lens, i, lens[i])
  {
    if i == 0 {
      FirstCodeZero(lens, lens[0]);
    } else {
      SymbolIsStandard(lens, i - 1);
      if lens[i] > lens[i - 1] {
        FirstCodeGap(lens, i, lens[i]);
        CountAbsent(lens, 0, i, lens[i]);
      }
    }
  }

  // ---------------------------------------------------------------------
  // Looking a code up in a bit stream
  // ---------------------------------------------------------------------

  datatype Lookup = Found(entry: nat) | OutOfBits | NoCode

  /**
    Entry `i` agrees with the next bits. A number too large for its length never
    equals what the high-bit-first reader returns; mirrored, its high bits are gone.
   */
  ghost predicate Matches(lens: seq<nat>, i: nat, stream: seq<bool>, reversed: bool)
    requires Lengths(lens) && i < |lens| && lens[i] <= |stream|
  {
    CodeBits(lens, i) == stream[..lens[i]] && (reversed || Symbol(lens, i) < Pow2(lens[i]))
  }

  /** The first entry from `i` on that agrees with the stream. */
  ghost function Find(lens: seq<nat>, i: nat, stream: seq<bool>, reversed: bool): (r: Lookup)
    requires Lengths(lens) && i <= |lens|
    ensures r.Found? ==> r.entry < |lens| && lens[r.entry] <= |stream|
    decreases |lens| - i
  {
    if i == |lens| then NoCode
    else if |stream| < lens[i] then OutOfBits
    else if Matches(lens, i, stream, reversed) then Found(i)
    else Find(lens, i + 1, stream, reversed)
  }

  lemma FindUnfolds(lens: seq<nat>, i: nat, stream: seq<bool>, reversed: bool)
    requires Lengths(lens) && i <= |lens|
    ensures Find(lens, i, stream, reversed)
      == if i == |lens| then NoCode
        else if |stream| < lens[i] then OutOfBits
        else if Matches(lens, i, stream, reversed) then Found(i)
        else Find(lens, i + 1, stream, reversed)
  {}

  lemma {:induction false} FindWritten(lens: seq<nat>, i: nat, k: nat, rest: seq<bool>, reversed: bool)
    requires Lengths(lens) && Kraft(lens) && i <= k < |lens|
    ensures Find(lens, i, CodeBits(lens, k) + rest, reversed) == Found(k)
    decreases k - i
  {
    if i < k {
      OthersDoNotMatch(lens, i, k, rest, reversed);
      FindWritten(lens, i + 1, k, rest, reversed);
    } else {
      WrittenMatches(lens, k, rest, reversed);
    }
  }

  lemma WrittenMatches(lens: seq<nat>, k: nat, rest: seq<bool>, reversed: bool)
    requires Lengths(lens) && Kraft(lens) && k < |lens|
    ensures Matches(lens, k, CodeBits(lens, k) + rest, reversed)
  {
    CodesFitIffKraft(lens);
    assert (CodeBits(lens, k) + rest)[..lens[k]] == CodeBits(lens, k);
  }

  lemma OthersDoNotMatch(lens: seq<nat>, i: nat, k: nat, rest: seq<bool>, reversed: bool)
    requires Lengths(lens) && Kraft(lens) && i < k < |lens|
    ensures lens[i] <= lens[k] && !Matches(lens, i, CodeBits(lens, k) + rest, reversed)
  {
    assert (CodeBits(lens, k) + rest)[..lens[i]] == CodeBits(lens, k)[..lens[i]];
    CodesFitIffKraft(lens);
    LaterCodeDiffers(lens, i, k);
  }

  ghost predicate Entries(n: nat, entries: seq<nat>) {
    forall m :: 0 <= m < |entries| ==> entries[m] < n
  }

  /** The bits of the entries from number `m` on, one code after the other. */
  ghost function Encode(lens: seq<nat>, entries: seq<nat>, m: nat): seq<bool>
    requires Lengths(lens) && Entries(|lens|, entries) && m <= |entries|
    decreases |entries| - m
  {
    if m == |entries| then [] else CodeBits(lens, entries[m]) + Encode(lens, entries, m + 1)
  }

  // ---------------------------------------------------------------------
  // The table
  // ---------------------------------------------------------------------

  datatype CodeLength = CodeLength(code: nat, bits: nat)

  datatype HuffmanLength = HuffmanLength(code: nat, bits: nat, symbol: Option<nat>, reverseSymbol: Option<nat>)

  /** Codes from `first` up to the next run have this length; -1 ends the list. */
  datatype Run = Run(first: nat, bits: int)

  /** A list that does not begin with its end mark, unless it has nothing else. */
  ghost predicate Runs(bootstrap: seq<Run>) {
    && bootstrap != []
    && (|bootstrap| == 1 || bootstrap[0].bits >= 0)
    && forall i :: 0 <= i < |bootstrap| ==> bootstrap[i].bits >= -1
  }

  function Before(a: CodeLength, b: CodeLength): bool {
    if a.bits == b.bits then a.code <= b.code else a.bits < b.bits
  }

  function Unnumbered(c: CodeLength): HuffmanLength {
    HuffmanLength(c.code, c.bits, None, None)
  }

  function LengthOf(h: HuffmanLength): CodeLength {
    CodeLength(h.code, h.bits)
  }

  ghost function LensOf(table: seq<HuffmanLength>): (r: seq<nat>)
    ensures |r| == |table| && forall i :: 0 <= i < |r| ==> r[i] == table[i].bits
  {
    seq(|table|, i requires 0 <= i < |table| => table[i].bits)
  }

  /** The first `n` entries carry their numbers, and the numbers mirrored. */
  ghost predicate NumberedUpTo(table: seq<HuffmanLength>, lens: seq<nat>, n: nat)
    requires Lengths(lens) && n <= |table| == |lens|
  {
    forall i :: 0 <= i < n ==>
      && table[i].symbol == Some(Symbol(lens, i))
      && table[i].reverseSymbol.Some?
      && ReadsLsb(CodeBits(lens, i), table[i].reverseSymbol.value)
  }

  function Span(start: nat, finish: nat, bits: nat): (r: seq<CodeLength>)
    decreases finish - start
  {
    if start >= finish then [] else [CodeLength(start, bits)] + Span(start + 1, finish, bits)
  }

  /** What the runs from number `i` on stand for. */
  ghost function Spans(bootstrap: seq<Run>, i: nat): seq<CodeLength>
    requires i < |bootstrap|
    decreases |bootstrap| - i
  {
    if i + 1 == |bootstrap| then []
    else
      var next := bootstrap[i + 1];
      (if bootstrap[i].bits > 0 then Span(bootstrap[i].first, next.first, bootstrap[i].bits) else [])
      + if next.bits == -1 then [] else Spans(bootstrap, i + 1)
  }

  /** The codes from `i` on that have a non-zero length. */
  ghost function Used(lengths: seq<nat>, i: nat): seq<CodeLength>
    requires i <= |lengths|
    decreases |lengths| - i
  {
    if i == |lengths| then []
    else (if lengths[i] > 0 then [CodeLength(i, lengths[i])] else []) + Used(lengths, i + 1)
  }

  /** One run for each code. */
  function Enumerate(lengths: seq<nat>): (r: seq<Run>)
    ensures |r| == |lengths| + 1 && r[|lengths|] == Run(|lengths|, -1)
    ensures forall i :: 0 <= i < |lengths| ==> r[i] == Run(i, lengths[i])
  {
    seq(|lengths|, i requires 0 <= i < |lengths| => Run(i, lengths[i])) + [Run(|lengths|, -1)]
  }

  lemma SpanOfOne(i: nat, bits: nat)
    ensures Span(i, i + 1, bits) == [CodeLength(i, bits)]
  {
    assert Span(i + 1, i + 1, bits) == [];
  }

  lemma SpansOfOne(lengths: seq<nat>, i: nat)
    requires i < |lengths|
    ensures Spans(Enumerate(lengths), i)
      == (if lengths[i] > 0 then Span(i, i + 1, lengths[i]) else [])
        + if i + 1 == |lengths| then [] else Spans(Enumerate(lengths), i + 1)
  {
    hide Enumerate, Span;
    var r := Enumerate(lengths);
    assert r[i] == Run(i, lengths[i]);
    assert r[i + 1] == if i + 1 == |lengths| then Run(i + 1, -1) else Run(i + 1, lengths[i + 1]);
  }

  lemma {:induction false} EnumerateSpans(lengths: seq<nat>, i: nat)
    requires i < |lengths|
    ensures Spans(Enumerate(lengths), i) == Used(lengths, i)
    decreases |lengths| - i
  {
    hide Enumerate, Span, Spans;
    SpansOfOne(lengths, i);
    SpanOfOne(i, lengths[i]);
    if i + 1 < |lengths| {
      EnumerateSpans(lengths, i + 1);
    }
  }

  lemma SpansStep(bootstrap: seq<Run>, i: nat, l: seq<CodeLength>)
    requires i + 1 < |bootstrap| && bootstrap[i].bits >= 0
    ensures var next := bootstrap[i + 1];
      l + Spans(bootstrap, i)
      == (if bootstrap[i].bits > 0 then l + Span(bootstrap[i].first, next.first, bootstrap[i].bits) else l)
         + if next.bits == -1 then [] else Spans(bootstrap, i + 1)
  {
    var next := bootstrap[i + 1];
    var here := if bootstrap[i].bits > 0 then Span(bootstrap[i].first, next.first, bootstrap[i].bits) else [];
    var later := if next.bits == -1 then [] else Spans(bootstrap, i + 1);
    assert Spans(bootstrap, i) == here + later;
    assert l + (here + later) == (l + here) + later;
    if bootstrap[i].bits == 0 {
      assert l + here == l;
    }
  }

  /** Expands a run-length list. */
  method ExpandSpans(bootstrap: seq<Run>) returns (l: seq<CodeLength>)
    requires Runs(bootstrap)
    ensures l == Spans(bootstrap, 0)
  {
    var start: nat, bits: int := bootstrap[0].first, bootstrap[0].bits;
    l := [];
    for i := 1 to |bootstrap|
      invariant bootstrap[i - 1] == Run(start, bits) && (|bootstrap| == 1 || bits >= 0)
      invariant Spans(bootstrap, 0) == l + Spans(bootstrap, i - 1)
    {
      var next := bootstrap[i];
      SpansStep(bootstrap, i - 1, l);
      if bits > 0 {
        l := l + Span(start, next.first, bits);
      }
      start, bits := next.first, next.bits;
      if bits == -1 {
        return;
      }
    }
  }

  /** Expands a run-length list and orders the codes by length and then by value. */
  method Build(bootstrap: seq<Run>) returns (table: seq<HuffmanLength>)
    requires Runs(bootstrap)
    ensures multiset(Map(LengthOf, table)) == multiset(Spans(bootstrap, 0))
    ensures Sorted(Map(LengthOf, table), Before)
    ensures forall i :: 0 <= i < |table| ==> LengthOf(table[i]).bits > 0
    ensures forall i, j :: 0 <= i <= j < |table| ==> LengthOf(table[i]).bits <= LengthOf(table[j]).bits
  {
    hide Spans, Before, Sort;
    var l := ExpandSpans(bootstrap);
    BeforeIsTotalOrder();
    var ordered := Sort(l, Before);
    table := Map(Unnumbered, ordered);
    assert Map(LengthOf, table) == ordered;
    SpansPositive(bootstrap, 0);
    SortedByBits(ordered, l);
    assert forall i :: 0 <= i < |table| ==> LengthOf(table[i]) == ordered[i];
  }

  lemma BeforeIsTotalOrder()
    ensures TotalOrder(Before)
  {}

  lemma SortedByBits(ordered: seq<CodeLength>, l: seq<CodeLength>)
    requires Sorted(ordered, Before) && multiset(ordered) == multiset(l) && forall c :: c in l ==> c.bits > 0
    ensures forall i :: 0 <= i < |ordered| ==> ordered[i].bits > 0
    ensures forall i, j :: 0 <= i <= j < |ordered| ==> ordered[i].bits <= ordered[j].bits
  {
    forall i | 0 <= i < |ordered| ensures ordered[i].bits > 0 {
      assert ordered[i] in multiset(ordered);
      assert ordered[i] in l;
    }
    forall i, j | 0 <= i <= j < |ordered| ensures ordered[i].bits <= ordered[j].bits {
      assert i < j ==> Before(ordered[i], ordered[j]);
    }
  }

  lemma {:induction false} ShlZero(n: nat)
    ensures Shl(0, n) == 0
  {
    if n > 0 {
      ShlZero(n - 1);
    }
  }

  /** The number after `symbol` when the length goes from `bits` to `next`. */
  function Renumber(symbol: int, bits: int, next: int): nat
    requires symbol >= -1 && bits <= next
  {
    if next == bits then symbol + 1 else Shl(symbol + 1, next - bits)
  }

  /** Numbering starts as if an entry of length -1 had been given the number -1. */
  lemma NextSymbol(lens: seq<nat>, i: nat)
    requires Lengths(lens) && i < |lens|
    ensures Symbol(lens, i)
      == if i == 0 then Renumber(-1, -1, lens[0]) else Renumber(Symbol(lens, i - 1), lens[i - 1], lens[i])
  {
    if i == 0 {
      ShlZero(lens[0] + 1);
    }
  }

  ghost predicate SameLengths(t: seq<HuffmanLength>, u: seq<HuffmanLength>) {
    |t| == |u| && forall k :: 0 <= k < |t| ==> t[k].code == u[k].code && t[k].bits == u[k].bits
  }

  lemma SameLengthsSameLens(t: seq<HuffmanLength>, u: seq<HuffmanLength>)
    requires SameLengths(t, u)
    ensures LensOf(t) == LensOf(u) && Map(LengthOf, t) == Map(LengthOf, u)
  {}

  lemma KeepsLengths(t: seq<HuffmanLength>, u: seq<HuffmanLength>, i: nat)
    requires SameLengths(t, u) && i < |t|
    ensures t[i].bits == LensOf(u)[i]
    ensures forall x: HuffmanLength :: x.code == t[i].code && x.bits == t[i].bits ==> SameLengths(t[i := x], u)
  {}

  /** Numbers one entry, given the number and the length of the one before. */
  method Number(x: HuffmanLength, last: int, bits: int) returns (symbol: nat, y: HuffmanLength)
    requires last >= -1 && bits <= x.bits && x.bits > 0
    ensures symbol == Renumber(last, bits, x.bits)
    ensures y.reverseSymbol.Some? && y == HuffmanLength(x.code, x.bits, Some(symbol), y.reverseSymbol)
    ensures ReadsLsb(MsbFirst(symbol, x.bits), y.reverseSymbol.value)
  {
    symbol := last + 1;
    if x.bits != bits {
      symbol := Shl(symbol, x.bits - bits);
    }
    var mirrored := ReverseBits(symbol, x.bits);
    y := HuffmanLength(x.code, x.bits, Some(symbol), Some(mirrored));
  }

  lemma {:induction false} NumberEntry(table: seq<HuffmanLength>, lens: seq<nat>, i: nat, mirrored: nat)
    requires Lengths(lens) && i < |table| == |lens| && NumberedUpTo(table, lens, i)
    requires ReadsLsb(CodeBits(lens, i), mirrored)
    ensures NumberedUpTo(
      table[i := HuffmanLength(table[i].code, table[i].bits, Some(Symbol(lens, i)), Some(mirrored))], lens, i + 1)
  {}

  /** The codes that the first `m` entries stand for. */
  ghost function CodesOf(table: seq<HuffmanLength>, entries: seq<nat>, m: nat): (r: seq<nat>)
    requires Entries(|table|, entries) && m <= |entries|
    ensures |r| == m
  {
    if m == 0 then [] else CodesOf(table, entries, m - 1) + [table[entries[m - 1]].code]
  }

  class HuffmanTable {
    var table: seq<HuffmanLength>

    ghost function Lens(): seq<nat>
      reads this
    {
      LensOf(table)
    }

    ghost predicate Valid()
      reads this
    {
      Lengths(Lens())
    }

    ghost predicate Numbered()
      reads this
      requires Valid()
    {
      NumberedUpTo(table, Lens(), |table|)
    }

    /** Expands the list, ordered by length and then by code. */
    constructor (bootstrap: seq<Run>)
      requires Runs(bootstrap)
      ensures Valid()
      ensures multiset(Map(LengthOf, table)) == multiset(Spans(bootstrap, 0))
      ensures Sorted(Map(LengthOf, table), Before)
    {
      var built := Build(bootstrap);
      table := built;
      new;
      assert forall i :: 0 <= i < |table| ==> table[i].bits == LengthOf(table[i]).bits;
    }

    /** One length per code; a zero length leaves the code out. */
    constructor Ordered(lengths: seq<nat>)
      ensures Valid()
      ensures multiset(Map(LengthOf, table)) == multiset(Used(lengths, 0))
      ensures Sorted(Map(LengthOf, table), Before)
    {
      var z := Enumerate(lengths);
      if lengths != [] {
        EnumerateSpans(lengths, 0);
      }
      var built := Build(z);
      table := built;
      new;
      assert forall i :: 0 <= i < |table| ==> table[i].bits == LengthOf(table[i]).bits;
    }

    /** Numbers the entries in table order. */
    method PopulateHuffmanSymbols()
      requires Valid()
      modifies this
      ensures Valid() && Numbered()
      ensures Map(LengthOf, table) == old(Map(LengthOf, table)) && Lens() == old(Lens())
    {
      var bits: int, symbol: int := -1, -1;
      ghost var before, lens: seq<nat> := table, Lens();
      for i := 0 to |table|
        invariant SameLengths(table, before)
        invariant bits == (if i == 0 then -1 else lens[i - 1]) && symbol == (if i == 0 then -1 else Symbol(lens, i - 1))
        invariant NumberedUpTo(table, lens, i)
      {
        NextSymbol(lens, i);
        KeepsLengths(table, before, i);
        var x;
        symbol, x := Number(table[i], symbol, bits);
        bits := x.bits;
        NumberEntry(table, lens, i, x.reverseSymbol.value);
        table := table[i := x];
      }
      SameLengthsSameLens(table, before);
    }

    /** The next code of a low-bit-first stream, compared through mirrored numbers. */
    method FindNextSymbolReversed(field: Bitfield) returns (r: Option<nat>)
      requires Valid() && Numbered() && field.Valid()
      modifies field
      ensures field.Valid()
      ensures var look := Find(Lens(), 0, old(field.Stream()), true);
        if look.Found?
        then r == Some(table[look.entry].code) && field.Stream() == old(field.Stream())[Lens()[look.entry]..]
        else r == None && field.Stream() == old(field.Stream())
    {
      hide Find, Symbol, CodeBits;
      var cachedLength, cached := -1, 0;
      ghost var stream := field.Stream();
      for i := 0 to |table|
        invariant field.Valid() && field.Stream() == stream
        invariant cachedLength == -1
          || (0 <= cachedLength <= |stream| && ReadsLsb(stream[..cachedLength], cached))
        invariant Find(Lens(), 0, stream, true) == Find(Lens(), i, stream, true)
      {
        FindUnfolds(Lens(), i, stream, true);
        var x := table[i];
        if cachedLength != x.bits {
          var snooped := field.SnoopBits(x.bits);
          if snooped.None? {
            return None;
          }
          cached, cachedLength := snooped.value, x.bits;
        }
        if x.reverseSymbol.value == cached {
          var _ := field.ReadBits(x.bits);
          return Some(x.code);
        }
        if stream[..x.bits] == CodeBits(Lens(), i) {
          ReadingIsUnique(stream[..x.bits], cached, x.reverseSymbol.value);
        }
      }
      FindUnfolds(Lens(), |table|, stream, true);
      return None;
    }

    /** The next code of a high-bit-first stream. */
    method FindNextSymbol(field: RBitfield) returns (r: Option<nat>)
      requires Valid() && Numbered() && field.Valid()
      modifies field
      ensures field.Valid()
      ensures var look := Find(Lens(), 0, old(field.Stream()), false);
        if look.Found?
        then r == Some(table[look.entry].code) && field.Stream() == old(field.Stream())[Lens()[look.entry]..]
        else r == None && field.Stream() == old(field.Stream())
    {
      hide Find, Symbol;
      var cachedLength, cached := -1, 0;
      ghost var stream := field.Stream();
      for i := 0 to |table|
        invariant field.Valid() && field.Stream() == stream
        invariant cachedLength == -1
          || (0 <= cachedLength <= |stream| && ReadsMsb(stream[..cachedLength], cached))
        invariant Find(Lens(), 0, stream, false) == Find(Lens(), i, stream, false)
      {
        FindUnfolds(Lens(), i, stream, false);
        var x := table[i];
        if cachedLength != x.bits {
          var snooped := field.SnoopBits(x.bits);
          if snooped.None? {
            return None;
          }
          cached, cachedLength := snooped.value, x.bits;
        }
        if x.symbol == Some(cached) {
          var _ := field.ReadBits(x.bits);
          return Some(x.code);
        }
        if Matches(Lens(), i, stream, false) {
          ReadingIsUnique(stream[..x.bits], cached, x.symbol.value);
        }
      }
      FindUnfolds(Lens(), |table|, stream, false);
      return None;
    }

    method ReadWrittenReversed(field: Bitfield, ghost entries: seq<nat>, ghost m: nat, ghost rest: seq<bool>)
      returns (code: nat)
      requires Valid() && Numbered() && Kraft(Lens()) && field.Valid()
      requires Entries(|table|, entries) && m < |entries|
      requires field.Stream() == Encode(Lens(), entries, m) + rest
      modifies field
      ensures field.Valid() && field.Stream() == Encode(Lens(), entries, m + 1) + rest
      ensures CodesOf(table, entries, m) + [code] == CodesOf(table, entries, m + 1)
    {
      NextWritten(Lens(), entries, m, rest, true);
      var found := FindNextSymbolReversed(field);
      return found.value;
    }

    /** Reading as many codes as were written returns them, low bit first. */
    method ReadBackReversed(field: Bitfield, ghost entries: seq<nat>, n: nat, ghost rest: seq<bool>)
      returns (codes: seq<nat>)
      requires Valid() && Numbered() && Kraft(Lens()) && field.Valid()
      requires n == |entries| && Entries(|table|, entries)
      requires field.Stream() == Encode(Lens(), entries, 0) + rest
      modifies field
      ensures field.Valid() && field.Stream() == rest
      ensures codes == CodesOf(table, entries, n)
    {
      codes := [];
      for i := 0 to n
        invariant field.Valid() && field.Stream() == Encode(Lens(), entries, i) + rest
        invariant codes == CodesOf(table, entries, i)
      {
        var code := ReadWrittenReversed(field, entries, i, rest);
        codes := codes + [code];
      }
    }

    method ReadWritten(field: RBitfield, ghost entries: seq<nat>, ghost m: nat, ghost rest: seq<bool>)
      returns (code: nat)
      requires Valid() && Numbered() && Kraft(Lens()) && field.Valid()
      requires Entries(|table|, entries) && m < |entries|
      requires field.Stream() == Encode(Lens(), entries, m) + rest
      modifies field
      ensures field.Valid() && field.Stream() == Encode(Lens(), entries, m + 1) + rest
      ensures CodesOf(table, entries, m) + [code] == CodesOf(table, entries, m + 1)
    {
      NextWritten(Lens(), entries, m, rest, false);
      var found := FindNextSymbol(field);
      return found.value;
    }

    /** Reading as many codes as were written returns them, high bit first. */
    method ReadBack(field: RBitfield, ghost entries: seq<nat>, n: nat, ghost rest: seq<bool>)
      returns (codes: seq<nat>)
      requires Valid() && Numbered() && Kraft(Lens()) && field.Valid()
      requires n == |entries| && Entries(|table|, entries)
      requires field.Stream() == Encode(Lens(), entries, 0) + rest
      modifies field
      ensures field.Valid() && field.Stream() == rest
      ensures codes == CodesOf(table, entries, n)
    {
      codes := [];
      for i := 0 to n
        invariant field.Valid() && field.Stream() == Encode(Lens(), entries, i) + rest
        invariant codes == CodesOf(table, entries, i)
      {
        var code := ReadWritten(field, entries, i, rest);
        codes := codes + [code];
      }
    }
  }

  lemma {:induction false} SpansPositive(bootstrap: seq<Run>, i: nat)
    requires i < |bootstrap|
    ensures forall c :: c in Spans(bootstrap, i) ==> c.bits > 0
    decreases |bootstrap| - i
  {
    if i + 1 < |bootstrap| {
      if bootstrap[i].bits > 0 {
        SpanBits(bootstrap[i].first, bootstrap[i + 1].first, bootstrap[i].bits);
      }
      SpansPositive(bootstrap, i + 1);
    }
  }

  lemma {:induction false} SpanBits(start: nat, finish: nat, bits: nat)
    ensures forall c :: c in Span(start, finish, bits) ==> c.bits == bits
    decreases finish - start
  {
    if start < finish {
      SpanBits(start + 1, finish, bits);
    }
  }

  /** A stream of written codes splits into the first one, found by lookup, and the others. */
  lemma {:induction false} NextWritten(lens: seq<nat>, entries: seq<nat>, m: nat, rest: seq<bool>, reversed: bool)
    requires Lengths(lens) && Kraft(lens) && Entries(|lens|, entries) && m < |entries|
    ensures var stream := Encode(lens, entries, m) + rest;
      && Find(lens, 0, stream, reversed) == Found(entries[m])
      && lens[entries[m]] <= |stream|
      && stream[lens[entries[m]]..] == Encode(lens, entries, m + 1) + rest
  {
    var tail := Encode(lens, entries, m + 1) + rest;
    assert Encode(lens, entries, m) + rest == CodeBits(lens, entries[m]) + tail;
    FindWritten(lens, 0, entries[m], tail, reversed);
  }
}
