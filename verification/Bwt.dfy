/**
  The inverse Burrows-Wheeler transform of own/pyflate-fast.py, and why its loop
  has to be counted: following the transform until it returns to its start yields
  only the shortest string that the block is a repetition of.
 */
module Bwt {
  import opened Options
  import opened Sorting

  /** A character code; the strings of a bzip2 block hold codes below 256. */
  type Byte = int

  ghost predicate IsByteString(s: seq<Byte>) {
    forall i :: 0 <= i < |s| ==> 0 <= s[i] < 256
  }

  function ByteLe(a: Byte, b: Byte): bool { a <= b }

  /** Lexicographic order on strings. */
  function LexLe(a: seq<Byte>, b: seq<Byte>): bool {
    if a == [] then true
    else if b == [] then false
    else a[0] < b[0] || (a[0] == b[0] && LexLe(a[1..], b[1..]))
  }

  lemma {:induction false} LexTotal(a: seq<Byte>, b: seq<Byte>)
    ensures LexLe(a, b) || LexLe(b, a)
    ensures LexLe(a, b) && LexLe(b, a) ==> a == b
  {
    if a != [] && b != [] {
      LexTotal(a[1..], b[1..]);
      assert a == [a[0]] + a[1..] && b == [b[0]] + b[1..];
    }
  }

  lemma {:induction false} LexTransitive(a: seq<Byte>, b: seq<Byte>, c: seq<Byte>)
    requires LexLe(a, b) && LexLe(b, c)
    ensures LexLe(a, c)
  {
    if a != [] {
      if a[0] == b[0] == c[0] {
        LexTransitive(a[1..], b[1..], c[1..]);
      }
    }
  }

  lemma LexIsTotalOrder()
    ensures TotalOrder(LexLe)
  {
    forall a, b ensures (LexLe(a, b) || LexLe(b, a)) && (LexLe(a, b) && LexLe(b, a) ==> a == b) {
      LexTotal(a, b);
    }
    forall a, b, c | LexLe(a, b) && LexLe(b, c) ensures LexLe(a, c) {
      LexTransitive(a, b, c);
    }
  }

  /** Dropping the last byte of two equally long strings keeps their order. */
  lemma {:induction false} LexPrefix(a: seq<Byte>, b: seq<Byte>)
    requires |a| == |b| > 0 && LexLe(a, b)
    ensures LexLe(a[..|a| - 1], b[..|b| - 1])
  {
    if |a| > 1 && a[0] == b[0] {
      LexPrefix(a[1..], b[1..]);
      assert a[..|a| - 1][1..] == a[1..][..|a| - 2];
      assert b[..|b| - 1][1..] == b[1..][..|b| - 2];
    }
  }

  // ---------------------------------------------------------------------
  // bwt_transform
  // ---------------------------------------------------------------------

  /** The positions of `l` in order of (byte, position): a stable sort of `l`. */
  ghost predicate IsStableSort(l: seq<Byte>, t: seq<int>) {
    && |t| == |l|
    && (forall j :: 0 <= j < |t| ==> 0 <= t[j] < |l|)
    && forall i, j :: 0 <= i < j < |t| ==> l[t[i]] < l[t[j]] || (l[t[i]] == l[t[j]] && t[i] < t[j])
  }

  ghost function Less(s: seq<Byte>, c: int): nat {
    if s == [] then 0 else Less(s[..|s| - 1], c) + if s[|s| - 1] < c then 1 else 0
  }

  ghost function Count(s: seq<Byte>, c: Byte): nat {
    if s == [] then 0 else Count(s[..|s| - 1], c) + if s[|s| - 1] == c then 1 else 0
  }

  lemma {:induction false} LessStep(s: seq<Byte>, c: Byte)
    ensures Less(s, c + 1) == Less(s, c) + Count(s, c)
  {
    if s != [] {
      LessStep(s[..|s| - 1], c);
    }
  }

  lemma {:induction false} LessMonotone(s: seq<Byte>, c: int, d: int)
    requires c <= d
    ensures Less(s, c) <= Less(s, d) <= |s|
  {
    if s != [] {
      LessMonotone(s[..|s| - 1], c, d);
    }
  }

  lemma {:induction false} CountMonotone(s: seq<Byte>, k: nat, m: nat, c: Byte)
    requires k <= m <= |s|
    ensures Count(s[..k], c) <= Count(s[..m], c)
    decreases m - k
  {
    if k < m {
      CountMonotone(s, k, m - 1, c);
      assert s[..m][..m - 1] == s[..m - 1];
    }
  }

  /** The slot that position `k` gets: after all smaller bytes and all earlier equal ones. */
  ghost function Slot(l: seq<Byte>, k: nat): nat
    requires k < |l|
  {
    Less(l, l[k]) + Count(l[..k], l[k])
  }

  lemma SlotOrder(l: seq<Byte>, k: nat, m: nat)
    requires k < |l| && m < |l|
    requires l[k] < l[m] || (l[k] == l[m] && k < m)
    ensures Slot(l, k) < Slot(l, m)
  {
    assert l[..k + 1][..k] == l[..k];
    if l[k] < l[m] {
      assert l[..|l|] == l;
      CountMonotone(l, k + 1, |l|, l[k]);
      LessStep(l, l[k]);
      LessMonotone(l, l[k] + 1, l[m]);
    } else {
      CountMonotone(l, k + 1, m, l[k]);
    }
  }

  lemma SlotBound(l: seq<Byte>, k: nat)
    requires k < |l|
    ensures Slot(l, k) < |l|
  {
    assert l[..k + 1][..k] == l[..k];
    assert l[..|l|] == l;
    CountMonotone(l, k + 1, |l|, l[k]);
    LessStep(l, l[k]);
    LessMonotone(l, l[k] + 1, l[k] + 1);
  }

  lemma {:induction false} LessIsMultisetInvariant(s: seq<Byte>, t: seq<Byte>, c: int)
    requires multiset(s) == multiset(t)
    ensures Less(s, c) == Less(t, c)
  {
    assert |s| == |multiset(s)| && |t| == |multiset(t)|;
    if s != [] {
      var m := IndexOfFirst(s, t);
      LessIsMultisetInvariant(s[..0] + s[0 + 1..], t[..m] + t[m + 1..], c);
      LessRemove(s, 0, c);
      LessRemove(t, m, c);
    }
  }

  lemma {:induction false} LessRemove(t: seq<Byte>, m: nat, c: int)
    requires m < |t|
    ensures Less(t, c) == Less(t[..m] + t[m + 1..], c) + if t[m] < c then 1 else 0
    decreases |t|
  {
    var n := |t|;
    if m == n - 1 {
      assert t[..m] + t[m + 1..] == t[..n - 1];
    } else {
      LessRemove(t[..n - 1], m, c);
      assert t[..n - 1][..m] + t[..n - 1][m + 1..] == (t[..m] + t[m + 1..])[..n - 2];
    }
  }

  /** In a sorted string the first occurrence of a byte comes right after all smaller ones. */
  lemma {:induction false} FirstOccurrence(f: seq<Byte>, c: Byte, at: nat)
    requires Sorted(f, ByteLe) && at < |f| && f[at] == c && c !in f[..at]
    ensures at == Less(f, c)
  {
    if |f| == at + 1 {
      assert forall i :: 0 <= i < at ==> f[..at][i] == f[i];
      assert forall i :: 0 <= i < at ==> f[i] < c by {
        forall i | 0 <= i < at ensures f[i] < c {
          assert ByteLe(f[i], f[at]) && f[..at][i] in f[..at];
        }
      }
      AllLess(f[..at], c);
    } else {
      assert f[..|f| - 1][..at] == f[..at];
      FirstOccurrence(f[..|f| - 1], c, at);
      assert ByteLe(f[at], f[|f| - 1]);
    }
  }

  lemma {:induction false} AllLess(s: seq<Byte>, c: int)
    requires forall i :: 0 <= i < |s| ==> s[i] < c
    ensures Less(s, c) == |s|
  {
    if s != [] {
      AllLess(s[..|s| - 1], c);
    }
  }

  /** Position of the first `c` in `f`, or -1. */
  method Find(f: seq<Byte>, c: Byte) returns (at: int)
    ensures at == -1 ==> c !in f
    ensures at != -1 ==> 0 <= at < |f| && f[at] == c && c !in f[..at]
  {
    for i := 0 to |f|
      invariant c !in f[..i]
    {
      if f[i] == c {
        return i;
      }
    }
    return -1;
  }

  lemma {:induction false} FirstInSorted(l: seq<Byte>, f: seq<Byte>, c: Byte, at: int)
    requires Sorted(f, ByteLe) && multiset(f) == multiset(l) && c in l
    requires at == -1 ==> c !in f
    requires at != -1 ==> 0 <= at < |f| && f[at] == c && c !in f[..at]
    ensures at == Less(l, c)
  {
    assert c in multiset(l);
    FirstOccurrence(f, c, at);
    LessIsMultisetInvariant(f, l, c);
  }

  /** Where each byte value of `l` first occurs in sorted order. */
  method FirstPositions(l: seq<Byte>) returns (base: array<int>)
    ensures fresh(base) && base.Length == 256
    ensures forall c :: 0 <= c < 256 && c in l ==> base[c] == Less(l, c)
  {
    hide Less, Sort, Sorted;
    var f := Sort(l, ByteLe);
    base := new int[256];
    for i := 0 to 256
      invariant forall c :: 0 <= c < i && c in l ==> base[c] == Less(l, c)
    {
      base[i] := Find(f, i);
      if i in l {
        FirstInSorted(l, f, i, base[i]);
      }
    }
  }

  lemma SlotsDiffer(l: seq<Byte>, k: nat, m: nat)
    requires k < m < |l|
    ensures Slot(l, k) != Slot(l, m)
  {
    if l[k] <= l[m] {
      SlotOrder(l, k, m);
    } else {
      SlotOrder(l, m, k);
    }
  }

  /** Computes the stable sort of `l` by counting. */
  method BwtTransform(l: seq<Byte>) returns (pointers: array<int>)
    requires IsByteString(l)
    ensures fresh(pointers) && IsStableSort(l, pointers[..])
  {
    var base := FirstPositions(l);
    pointers := new int[|l|](_ => -1);
    for i := 0 to |l|
      invariant pointers.Length == |l|
      invariant forall c :: c in l ==> base[c] == Less(l, c) + Count(l[..i], c)
      invariant forall k :: 0 <= k < i ==> Slot(l, k) < |l| && pointers[Slot(l, k)] == k
    {
      var symbol := l[i];
      SlotBound(l, i);
      forall k | 0 <= k < i ensures Slot(l, k) != Slot(l, i) {
        SlotsDiffer(l, k, i);
      }
      pointers[base[symbol]] := i;
      base[symbol] := base[symbol] + 1;
      assert l[..i + 1][..i] == l[..i];
    }
    SlotsGiveStableSort(l, pointers[..]);
  }

  lemma SlotsGiveStableSort(l: seq<Byte>, t: seq<int>)
    requires |t| == |l|
    requires forall k :: 0 <= k < |l| ==> Slot(l, k) < |l| && t[Slot(l, k)] == k
    ensures IsStableSort(l, t)
  {
    var slots := seq(|l|, k requires 0 <= k < |l| => Slot(l, k));
    forall i, j | 0 <= i < j < |slots| ensures slots[i] != slots[j] {
      assert t[Slot(l, i)] == i && t[Slot(l, j)] == j;
    }
    PermutationOfRange(slots);
    forall p | 0 <= p < |t| ensures 0 <= t[p] < |l| && Slot(l, t[p]) == p {
      assert p in slots;
      var k :| 0 <= k < |slots| && slots[k] == p;
      assert t[Slot(l, k)] == k;
    }
    forall p, q | 0 <= p < q < |t|
      ensures l[t[p]] < l[t[q]] || (l[t[p]] == l[t[q]] && t[p] < t[q])
    {
      assert Slot(l, t[p]) == p && Slot(l, t[q]) == q;
      if l[t[q]] < l[t[p]] || (l[t[q]] == l[t[p]] && t[q] < t[p]) {
        SlotOrder(l, t[q], t[p]);
      }
    }
  }

  // ---------------------------------------------------------------------
  // Sorted rotations
  // ---------------------------------------------------------------------

  function Rotate(s: seq<Byte>, k: nat): (r: seq<Byte>)
    requires k <= |s|
    ensures |r| == |s|
  {
    s[k..] + s[..k]
  }

  /** Moves the last byte to the front. */
  function RotateRight(s: seq<Byte>): (r: seq<Byte>)
    ensures |r| == |s|
  {
    if s == [] then [] else [s[|s| - 1]] + s[..|s| - 1]
  }

  function Rotations(s: seq<Byte>): (rows: seq<seq<Byte>>)
    ensures |rows| == |s|
  {
    seq(|s|, k requires 0 <= k < |s| => Rotate(s, k))
  }

  /** `m` lists all rotations of `s`, equal ones as often as they occur, in order. */
  ghost predicate SortedRotations(s: seq<Byte>, m: seq<seq<Byte>>) {
    Sorted(m, LexLe) && multiset(m) == multiset(Rotations(s))
  }

  lemma SortedRotationsRows(s: seq<Byte>, m: seq<seq<Byte>>)
    requires SortedRotations(s, m)
    ensures |m| == |s| && forall j :: 0 <= j < |m| ==> |m[j]| == |s|
  {
    assert |m| == |multiset(m)| && |Rotations(s)| == |multiset(Rotations(s))|;
    forall j | 0 <= j < |m| ensures |m[j]| == |s| {
      assert m[j] in multiset(Rotations(s));
    }
  }

  /** The last byte of every row. */
  ghost predicate LastColumn(m: seq<seq<Byte>>, l: seq<Byte>) {
    && |l| == |m|
    && forall j :: 0 <= j < |m| ==> |m[j]| == |m| && l[j] == m[j][|m| - 1]
  }

  lemma RotateRightOfRotate(s: seq<Byte>, k: nat)
    requires k < |s|
    ensures RotateRight(Rotate(s, k)) == Rotate(s, if k == 0 then |s| - 1 else k - 1)
  {
    forall i | 0 <= i < |s|
      ensures RotateRight(Rotate(s, k))[i] == Rotate(s, if k == 0 then |s| - 1 else k - 1)[i]
    {}
  }

  /** Rotating every rotation once more gives the same rotations. */
  lemma RotationsShift(s: seq<Byte>)
    ensures multiset(Map(RotateRight, Rotations(s))) == multiset(Rotations(s))
  {
    var n, rows := |s|, Rotations(s);
    if n > 0 {
      var shifted := Map(RotateRight, rows);
      forall k | 0 <= k < n ensures shifted[k] == rows[if k == 0 then n - 1 else k - 1] {
        RotateRightOfRotate(s, k);
        assert rows[k] == Rotate(s, k);
      }
      CyclicShift(rows, shifted);
    }
  }

  lemma CyclicShift<T>(rows: seq<T>, shifted: seq<T>)
    requires |rows| == |shifted| > 0
    requires forall k :: 0 <= k < |rows| ==> shifted[k] == rows[if k == 0 then |rows| - 1 else k - 1]
    ensures multiset(shifted) == multiset(rows)
  {
    var n := |rows|;
    assert rows == rows[..n - 1] + [rows[n - 1]];
    assert shifted == [rows[n - 1]] + rows[..n - 1];
  }

  /** The rows in stable order of their last byte, that byte moved to the front. */
  ghost function Prepended(m: seq<seq<Byte>>, t: seq<int>): (a: seq<seq<Byte>>)
    requires forall j :: 0 <= j < |t| ==> 0 <= t[j] < |m|
    ensures |a| == |t| && forall j :: 0 <= j < |t| ==> a[j] == RotateRight(m[t[j]])
  {
    seq(|t|, j requires 0 <= j < |t| => RotateRight(m[t[j]]))
  }

  /** Prepending the last bytes in stable order keeps the rows sorted. */
  lemma PrependedIsSorted(m: seq<seq<Byte>>, l: seq<Byte>, t: seq<int>)
    requires Sorted(m, LexLe) && LastColumn(m, l) && IsStableSort(l, t)
    ensures Sorted(Prepended(m, t), LexLe)
  {
    var a, n := Prepended(m, t), |m|;
    forall i, j | 0 <= i < j < |a| ensures LexLe(a[i], a[j]) {
      var x, y := m[t[i]], m[t[j]];
      assert a[i][0] == l[t[i]] && a[j][0] == l[t[j]];
      if l[t[i]] == l[t[j]] {
        LexPrefix(x, y);
        assert a[i][1..] == x[..n - 1] && a[j][1..] == y[..n - 1];
      }
    }
  }

  /** Prepending the last bytes only rearranges the rotations. */
  lemma PrependedIsRearranged(s: seq<Byte>, m: seq<seq<Byte>>, t: seq<int>)
    requires SortedRotations(s, m) && Permutation(t) && |t| == |m|
    ensures multiset(Prepended(m, t)) == multiset(m)
  {
    var pick := (k: int) => if 0 <= k < |m| then m[k] else [];
    var rows := Map(pick, t);
    assert Prepended(m, t) == Map(RotateRight, rows);
    assert Map(pick, Range(|m|)) == m;
    PermutationOfRange(t);
    MapMultiset(pick, t, Range(|m|));
    MapMultiset(RotateRight, rows, m);
    MapMultiset(RotateRight, m, Rotations(s));
    RotationsShift(s);
  }

  /** Row t[j] is row j rotated left by one, repeated rows included. */
  lemma RowStep(s: seq<Byte>, m: seq<seq<Byte>>, l: seq<Byte>, t: seq<int>)
    requires SortedRotations(s, m) && LastColumn(m, l) && IsStableSort(l, t)
    ensures forall j :: 0 <= j < |t| ==> RotateRight(m[t[j]]) == m[j]
  {
    PrependedIsSorted(m, l, t);
    PrependedIsRearranged(s, m, t);
    LexIsTotalOrder();
    SortedIsUnique(Prepended(m, t), m, LexLe);
  }

  /** `k` applications of the transform, starting at row `at`. */
  ghost function Follow(t: seq<int>, at: int, k: nat): (r: int)
    requires forall j :: 0 <= j < |t| ==> 0 <= t[j] < |t|
    requires 0 <= at < |t|
    ensures 0 <= r < |t|
  {
    if k == 0 then at else t[Follow(t, at, k - 1)]
  }

  lemma {:induction false} FollowRotates(s: seq<Byte>, m: seq<seq<Byte>>, l: seq<Byte>, t: seq<int>, at: int, k: nat)
    requires SortedRotations(s, m) && LastColumn(m, l) && IsStableSort(l, t)
    requires 0 <= at < |m| && k <= |s|
    ensures |m[at]| == |s| && m[Follow(t, at, k)] == Rotate(m[at], k)
  {
    SortedRotationsRows(s, m);
    if k == 0 {
      assert Rotate(m[at], 0) == m[at];
    } else {
      FollowRotates(s, m, l, t, at, k - 1);
      RowStep(s, m, l, t);
      RotateOnce(m[at], k, m[Follow(t, at, k)]);
    }
  }

  lemma RotateOnce(row: seq<Byte>, k: nat, next: seq<Byte>)
    requires 0 < k <= |row| == |next| && RotateRight(next) == Rotate(row, k - 1)
    ensures next == Rotate(row, k)
  {
    var n := |row|;
    forall i | 0 <= i < n ensures next[i] == Rotate(row, k)[i] {
      assert RotateRight(next)[if i == n - 1 then 0 else i + 1] == next[i];
    }
  }

  lemma ReadLast(s: seq<Byte>, m: seq<seq<Byte>>, l: seq<Byte>, row: int, k: nat)
    requires LastColumn(m, l) && |m| == |s| && 0 <= row < |m| && k < |s| && m[row] == Rotate(s, k + 1)
    ensures l[row] == s[k]
  {
    assert l[row] == m[row][|m| - 1];
  }

  /** The byte read in the k-th step is the k-th byte of the row the walk began at. */
  lemma {:induction false} FollowReads(s: seq<Byte>, m: seq<seq<Byte>>, l: seq<Byte>, t: seq<int>, at: int, k: nat)
    requires SortedRotations(s, m) && LastColumn(m, l) && IsStableSort(l, t)
    requires 0 <= at < |m| && m[at] == s && k < |s|
    ensures l[Follow(t, at, k + 1)] == s[k]
  {
    SortedRotationsRows(s, m);
    FollowRotates(s, m, l, t, at, k + 1);
    ReadLast(s, m, l, Follow(t, at, k + 1), k);
  }

  /**
    Inverts the transform: `None` stands for the index error of a pointer outside
    the block. The string that was transformed comes back, repetitions included.
   */
  method BwtReverse(l: seq<Byte>, end: nat) returns (out: Option<seq<Byte>>)
    requires IsByteString(l)
    ensures out.None? <==> l != [] && end >= |l|
    ensures forall s, m :: SortedRotations(s, m) && LastColumn(m, l) && end < |m| && m[end] == s ==> out == Some(s)
    ensures l == [] ==> out == Some([])
  {
    if l == [] {
      return Some([]);
    }
    var t := BwtTransform(l);
    if end >= |l| {
      return None;
    }
    var at: int := end;
    var bytes: seq<Byte> := [];
    for i := 0 to |l|
      invariant 0 <= at < |l| && |bytes| == i
      invariant at == Follow(t[..], end, i)
      invariant forall k :: 0 <= k < i ==> bytes[k] == l[Follow(t[..], end, k + 1)]
    {
      at := t[at];
      bytes := bytes + [l[at]];
    }
    forall s, m | SortedRotations(s, m) && LastColumn(m, l) && end < |m| && m[end] == s ensures bytes == s {
      SortedRotationsRows(s, m);
      forall k | 0 <= k < |s| ensures bytes[k] == s[k] {
        FollowReads(s, m, l, t[..], end, k);
      }
    }
    return Some(bytes);
  }

  // ---------------------------------------------------------------------
  // The encoder, as a reference definition
  // ---------------------------------------------------------------------

  /** The last byte of every row of a square. */
  function LastBytes(m: seq<seq<Byte>>): (l: seq<Byte>)
    requires forall j :: 0 <= j < |m| ==> |m[j]| == |m|
    ensures LastColumn(m, l)
  {
    seq(|m|, j requires 0 <= j < |m| => m[j][|m| - 1])
  }

  /** The sorted rotations and their last column. */
  function Forward(s: seq<Byte>): (r: (seq<seq<Byte>>, seq<Byte>))
    ensures SortedRotations(s, r.0) && LastColumn(r.0, r.1)
  {
    LexIsTotalOrder();
    var m := Sort(Rotations(s), LexLe);
    assert SortedRotations(s, m);
    SortedRotationsRows(s, m);
    (m, LastBytes(m))
  }

  /** The string itself is one of the rows, so a block pointer always exists. */
  lemma RowOfString(s: seq<Byte>)
    requires s != []
    ensures exists end :: 0 <= end < |Forward(s).0| && Forward(s).0[end] == s
  {
    var m := Forward(s).0;
    assert Rotations(s)[0] == s;
    assert s in multiset(Rotations(s));
    assert s in multiset(m);
    assert s in m;
  }

  /** Decoding what the encoder produced gives the string back, for every string. */
  method RoundTrip(s: seq<Byte>) returns (out: Option<seq<Byte>>)
    requires IsByteString(s)
    ensures out == Some(s)
  {
    var (m, l) := Forward(s);
    SortedRotationsRows(s, m);
    LastColumnIsByteString(s, m, l);
    if s == [] {
      out := BwtReverse(l, 0);
    } else {
      RowOfString(s);
      var end :| 0 <= end < |m| && m[end] == s;
      out := BwtReverse(l, end);
    }
  }

  lemma LastColumnIsByteString(s: seq<Byte>, m: seq<seq<Byte>>, l: seq<Byte>)
    requires IsByteString(s) && SortedRotations(s, m) && LastColumn(m, l)
    ensures IsByteString(l)
  {
    forall j | 0 <= j < |l| ensures 0 <= l[j] < 256 {
      assert m[j] in multiset(Rotations(s));
      var k :| 0 <= k < |s| && m[j] == Rotate(s, k);
    }
  }

  // ---------------------------------------------------------------------
  // The earlier loop, which ran until it came back to its start
  // ---------------------------------------------------------------------

  /** The least positive rotation that leaves `s` as it is. */
  ghost predicate IsPeriod(s: seq<Byte>, d: nat) {
    0 < d <= |s| && Rotate(s, d) == s && forall e :: 0 < e < d ==> Rotate(s, e) != s
  }

  lemma PeriodExists(s: seq<Byte>)
    requires s != []
    ensures exists d :: IsPeriod(s, d)
  {
    assert Rotate(s, |s|) == s;
    var d := 1;
    while Rotate(s, d) != s
      invariant 0 < d <= |s| && forall e :: 0 < e < d ==> Rotate(s, e) != s
      decreases |s| - d
    {
      d := d + 1;
    }
    assert IsPeriod(s, d);
  }

  /** Equal rows keep their order under the transform. */
  lemma {:induction false} FollowKeepsTies(s: seq<Byte>, m: seq<seq<Byte>>, l: seq<Byte>, t: seq<int>, i: int, j: int,
      k: nat)
    requires SortedRotations(s, m) && LastColumn(m, l) && IsStableSort(l, t)
    requires 0 <= i < j < |m| && m[i] == m[j] && k <= |s|
    ensures Follow(t, i, k) < Follow(t, j, k)
  {
    if k > 0 {
      FollowKeepsTies(s, m, l, t, i, j, k - 1);
      FollowRotates(s, m, l, t, i, k - 1);
      FollowRotates(s, m, l, t, j, k - 1);
      var i', j' := Follow(t, i, k - 1), Follow(t, j, k - 1);
      FirstByte(s, m, l, t, i');
      FirstByte(s, m, l, t, j');
    }
  }

  /** Entry t[j] of the last column is the first byte of row j. */
  lemma FirstByte(s: seq<Byte>, m: seq<seq<Byte>>, l: seq<Byte>, t: seq<int>, j: int)
    requires SortedRotations(s, m) && LastColumn(m, l) && IsStableSort(l, t) && 0 <= j < |m|
    ensures l[t[j]] == m[j][0]
  {
    RowStep(s, m, l, t);
    assert RotateRight(m[t[j]])[0] == l[t[j]];
  }

  /** A rotation that maps the row to itself leads back to the very same row number, never below. */
  lemma {:induction false} PeriodNotBelow(s: seq<Byte>, m: seq<seq<Byte>>, l: seq<Byte>, t: seq<int>, at: int, d: nat)
    requires SortedRotations(s, m) && LastColumn(m, l) && IsStableSort(l, t)
    requires 0 <= at < |m| && m[at] == s && d <= |s| && Rotate(s, d) == s
    ensures Follow(t, at, d) >= at
    decreases at
  {
    var to := Follow(t, at, d);
    FollowRotates(s, m, l, t, at, d);
    if to < at {
      PeriodNotBelow(s, m, l, t, to, d);
      FollowKeepsTies(s, m, l, t, to, at, d);
    }
  }

  /** ... and never above. */
  lemma {:induction false} PeriodNotAbove(s: seq<Byte>, m: seq<seq<Byte>>, l: seq<Byte>, t: seq<int>, at: int, d: nat)
    requires SortedRotations(s, m) && LastColumn(m, l) && IsStableSort(l, t)
    requires 0 <= at < |m| && m[at] == s && d <= |s| && Rotate(s, d) == s
    ensures Follow(t, at, d) <= at
    decreases |m| - at
  {
    var to := Follow(t, at, d);
    FollowRotates(s, m, l, t, at, d);
    if to > at {
      PeriodNotAbove(s, m, l, t, to, d);
      FollowKeepsTies(s, m, l, t, at, to, d);
    }
  }

  /** The walk from the row of `s` is back after `d` steps exactly when rotating by `d` gives `s`. */
  lemma {:induction false} FollowReturns(s: seq<Byte>, m: seq<seq<Byte>>, l: seq<Byte>, t: seq<int>, at: int, d: nat)
    requires SortedRotations(s, m) && LastColumn(m, l) && IsStableSort(l, t)
    requires 0 <= at < |m| && m[at] == s && d <= |s|
    ensures Follow(t, at, d) == at <==> Rotate(s, d) == s
  {
    FollowRotates(s, m, l, t, at, d);
    if Rotate(s, d) == s {
      PeriodNotBelow(s, m, l, t, at, d);
      PeriodNotAbove(s, m, l, t, at, d);
    }
  }

  /** The walk steps along a permutation of the rows. */
  lemma StableSortIsPermutation(l: seq<Byte>, t: seq<int>)
    requires IsStableSort(l, t)
    ensures Permutation(t)
  {}

  /** A walk that has not come back has never met the same row twice. */
  lemma {:induction false} FollowDistinct(t: seq<int>, at: int, i: nat, j: nat)
    requires Permutation(t) && 0 <= at < |t| && i < j
    requires forall k :: 0 < k <= j ==> Follow(t, at, k) != at
    ensures Follow(t, at, i) != Follow(t, at, j)
  {
    if i > 0 && Follow(t, at, i) == Follow(t, at, j) {
      var a, b := Follow(t, at, i - 1), Follow(t, at, j - 1);
      assert t[a] == t[b];
      assert a == b;
      FollowDistinct(t, at, i - 1, j - 1);
    }
  }

  /** The walk comes back within as many steps as there are rows. */
  lemma FollowComesBack(t: seq<int>, at: int)
    requires Permutation(t) && 0 <= at < |t|
    ensures exists k :: 0 < k <= |t| && Follow(t, at, k) == at
  {
    var n := |t|;
    if forall k :: 0 < k <= n ==> Follow(t, at, k) != at {
      var walk := seq(n + 1, k requires 0 <= k <= n => Follow(t, at, k));
      forall i, j | 0 <= i < j < |walk| ensures walk[i] != walk[j] {
        FollowDistinct(t, at, i, j);
      }
      Pigeonhole(walk, n);
      assert false;
    }
  }

  /**
    The loop that the counted one replaced: it stops when the walk is back at its
    start, which for a repeated string is after one copy.
   */
  method BwtReverseUntilBack(l: seq<Byte>, end: nat) returns (out: seq<Byte>)
    requires IsByteString(l) && end < |l|
    ensures forall s, m, d ::
      (SortedRotations(s, m) && LastColumn(m, l) && m[end] == s && IsPeriod(s, d) ==> out == s[..d])
    ensures forall s, m ::
      (SortedRotations(s, m) && LastColumn(m, l) && m[end] == s ==>
        (out == s <==> forall e :: 0 < e < |s| ==> Rotate(s, e) != s))
  {
    var t := BwtTransform(l);
    ghost var ts := t[..];
    StableSortIsPermutation(l, ts);
    FollowComesBack(ts, end);
    ghost var back :| 0 < back <= |l| && Follow(ts, end, back) == end;
    out := [];
    var next := t[end];
    StepOn(ts, end, 0);
    while next != end
      invariant t[..] == ts && |out| < back && next == Follow(ts, end, |out| + 1)
      invariant Away(ts, end, |out|) && ReadAlong(l, ts, end, out)
      decreases back - |out|
    {
      StepOn(ts, end, |out| + 1);
      ReadOn(l, ts, end, out);
      AwayOn(ts, end, |out|);
      out := out + [l[next]];
      next := t[next];
    }
    ReadOn(l, ts, end, out);
    out := out + [l[next]];
    UntilBackReadsOnePeriod(l, ts, end, out);
    forall s, m | SortedRotations(s, m) && LastColumn(m, l) && m[end] == s
      ensures out == s <==> forall e :: 0 < e < |s| ==> Rotate(s, e) != s
    {
      SortedRotationsRows(s, m);
      PeriodExists(s);
      var d :| IsPeriod(s, d);
      UntilBackIsCompleteIff(s, d);
    }
  }

  /** The first `n` steps of the walk have not come back to its start. */
  ghost predicate Away(t: seq<int>, at: int, n: nat)
    requires 0 <= at < |t| && forall j :: 0 <= j < |t| ==> 0 <= t[j] < |t|
  {
    forall k :: 0 < k <= n ==> Follow(t, at, k) != at
  }

  /** `out` is what the first steps of the walk read. */
  ghost predicate ReadAlong(l: seq<Byte>, t: seq<int>, at: int, out: seq<Byte>)
    requires 0 <= at < |t| == |l| && forall j :: 0 <= j < |t| ==> 0 <= t[j] < |t|
  {
    forall k :: 0 < k <= |out| ==> out[k - 1] == l[Follow(t, at, k)]
  }

  lemma {:induction false} ReadOn(l: seq<Byte>, t: seq<int>, at: int, out: seq<Byte>)
    requires 0 <= at < |t| == |l| && forall j :: 0 <= j < |t| ==> 0 <= t[j] < |t|
    requires ReadAlong(l, t, at, out)
    ensures ReadAlong(l, t, at, out + [l[Follow(t, at, |out| + 1)]])
  {}

  lemma AwayOn(t: seq<int>, at: int, n: nat)
    requires 0 <= at < |t| && forall j :: 0 <= j < |t| ==> 0 <= t[j] < |t|
    requires Away(t, at, n) && Follow(t, at, n + 1) != at
    ensures Away(t, at, n + 1)
  {}

  lemma StepOn(t: seq<int>, at: int, k: nat)
    requires 0 <= at < |t| && forall j :: 0 <= j < |t| ==> 0 <= t[j] < |t|
    ensures Follow(t, at, k + 1) == t[Follow(t, at, k)]
  {}

  /** The first return of the walk is after one period. */
  lemma {:induction false} FirstReturn(s: seq<Byte>, m: seq<seq<Byte>>, l: seq<Byte>, t: seq<int>, end: nat, d: nat,
      k: nat)
    requires SortedRotations(s, m) && LastColumn(m, l) && IsStableSort(l, t)
    requires end < |m| && m[end] == s && IsPeriod(s, d)
    requires 0 < k <= |s| && Follow(t, end, k) == end
    requires Away(t, end, k - 1)
    ensures k == d
  {
    FollowReturns(s, m, l, t, end, k);
    FollowReturns(s, m, l, t, end, d);
  }

  lemma ReadUntilBack(s: seq<Byte>, m: seq<seq<Byte>>, l: seq<Byte>, t: seq<int>, end: nat, out: seq<Byte>)
    requires SortedRotations(s, m) && LastColumn(m, l) && IsStableSort(l, t)
    requires end < |m| && m[end] == s && |out| <= |t|
    requires ReadAlong(l, t, end, out)
    ensures |out| <= |s| && out == s[..|out|]
  {
    SortedRotationsRows(s, m);
    forall k | 0 <= k < |out| ensures out[k] == s[k] {
      assert out[(k + 1) - 1] == l[Follow(t, end, k + 1)];
      FollowReads(s, m, l, t, end, k);
    }
  }

  lemma {:induction false} OnePeriodRead(s: seq<Byte>, m: seq<seq<Byte>>, l: seq<Byte>, t: seq<int>, end: nat, d: nat,
      out: seq<Byte>)
    requires SortedRotations(s, m) && LastColumn(m, l) && IsStableSort(l, t)
    requires end < |m| && m[end] == s && IsPeriod(s, d)
    requires 0 < |out| <= |l| && Follow(t, end, |out|) == end
    requires Away(t, end, |out| - 1)
    requires ReadAlong(l, t, end, out)
    ensures out == s[..d]
  {
    SortedRotationsRows(s, m);
    ReadUntilBack(s, m, l, t, end, out);
    FirstReturn(s, m, l, t, end, d, |out|);
  }

  lemma {:induction false} UntilBackReadsOnePeriod(l: seq<Byte>, t: seq<int>, end: nat, out: seq<Byte>)
    requires IsStableSort(l, t) && end < |l|
    requires 0 < |out| <= |l| && Follow(t, end, |out|) == end
    requires Away(t, end, |out| - 1)
    requires ReadAlong(l, t, end, out)
    ensures forall s, m, d ::
      (SortedRotations(s, m) && LastColumn(m, l) && m[end] == s && IsPeriod(s, d) ==> out == s[..d])
  {
    forall s, m, d | SortedRotations(s, m) && LastColumn(m, l) && m[end] == s && IsPeriod(s, d)
      ensures out == s[..d]
    {
      OnePeriodRead(s, m, l, t, end, d, out);
    }
  }

  ghost function Repeat(w: seq<Byte>, times: nat): seq<Byte> {
    if times == 0 then [] else w + Repeat(w, times - 1)
  }

  /** A prefix that is itself a rotation count fixing `s` is some number of copies of the period. */
  lemma {:induction false} PeriodIsRepetition(s: seq<Byte>, d: nat, e: nat) returns (times: nat)
    requires IsPeriod(s, d) && e <= |s| && Rotate(s, e) == s
    ensures s[..e] == Repeat(s[..d], times)
    decreases e
  {
    if e == 0 {
      times := 0;
    } else {
      assert d <= e;
      RotationDifference(s, d, e);
      var rest := PeriodIsRepetition(s, d, e - d);
      forall i | 0 <= i < e - d ensures s[d + i] == s[i] {
        assert Rotate(s, d)[i] == s[d + i];
      }
      assert s[..e] == s[..d] + s[..e - d];
      times := rest + 1;
    }
  }

  /** If rotating by `d` and by `e` leaves `s` alone, so does rotating by the difference. */
  lemma RotationDifference(s: seq<Byte>, d: nat, e: nat)
    requires d <= e <= |s| && Rotate(s, d) == s && Rotate(s, e) == s
    ensures Rotate(s, e - d) == s
  {
    var n := |s|;
    forall i | 0 <= i < n ensures Rotate(s, e - d)[i] == s[i] {
      // byte i of the rotation by e is byte p of the rotation by d
      var p := Around(n, i + e - d);
      RotateAt(s, e - d, i);
      RotateAt(s, e, i);
      RotateAt(s, d, p);
      assert Around(n, p + d) == Around(n, i + e);
    }
  }

  function Around(n: nat, i: nat): nat {
    if i < n then i else i - n
  }

  lemma RotateAt(s: seq<Byte>, k: nat, i: nat)
    requires k <= |s| && i < |s|
    ensures Rotate(s, k)[i] == s[Around(|s|, i + k)]
  {}

  /**
    What the earlier loop got wrong, exactly: the string is its output `s[..d]` written
    some number of times, so the output is complete if and only if no rotation short
    of a full turn leaves the string as it is.
   */
  lemma UntilBackIsCompleteIff(s: seq<Byte>, d: nat)
    requires IsPeriod(s, d)
    ensures exists times :: s == Repeat(s[..d], times)
    ensures s[..d] == s <==> forall e :: 0 < e < |s| ==> Rotate(s, e) != s
  {
    assert Rotate(s, |s|) == s && s[..|s|] == s;
    var times := PeriodIsRepetition(s, d, |s|);
  }
}
