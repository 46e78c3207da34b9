/**
  own/fannkuch.py: the flip loop, whose termination has a measure of its own, and the
  counter that rotates prefixes to visit every permutation.
 */
module Fannkuch {

  import Sorting
  import opened Bits

  type Perm = seq<nat>

  /** A permutation of 0, ..., n - 1. */
  predicate IsPerm(p: Perm, n: nat) {
    && |p| == n
    && (forall i :: 0 <= i < n ==> p[i] < n)
    && (forall i, j :: 0 <= i < j < n ==> p[i] != p[j])
  }

  // ---------------------------------------------------------------------
  // Flips
  // ---------------------------------------------------------------------

  /** The first `k + 1` entries in reverse order. */
  function Flip(p: Perm, k: nat): (q: Perm)
    requires k < |p|
    ensures |q| == |p|
  {
    seq(|p|, i requires 0 <= i < |p| => if i <= k then p[k - i] else p[i])
  }

  /** A flip is the assignment of a reversed prefix to that prefix. */
  lemma FlipIsReversal(p: Perm, k: nat)
    requires k < |p|
    ensures Flip(p, k) == Sorting.Reversed(p[..k + 1]) + p[k + 1..]
  {
    var r := Sorting.Reversed(p[..k + 1]);
    assert |r| == k + 1;
  }

  lemma FlipIsPerm(p: Perm, k: nat, n: nat)
    requires IsPerm(p, n) && k < n
    ensures IsPerm(Flip(p, k), n)
  {}

  /** The sum of 2^(i-1) over the positions i, 1 <= i < n, that hold their own number. */
  function Fixed(p: Perm, n: nat): nat
    requires n <= |p|
  {
    if n <= 1 then 0 else Fixed(p, n - 1) + (if p[n - 1] == n - 1 then Pow2(n - 2) else 0)
  }

  lemma {:induction false} FixedBelow(p: Perm, n: nat)
    requires 1 <= n <= |p|
    ensures Fixed(p, n) < Pow2(n - 1)
  {
    if n > 1 {
      FixedBelow(p, n - 1);
    }
  }

  /** A flip puts its first number in place and disturbs smaller positions only: the sum grows. */
  lemma {:induction false} FlipFixesMore(p: Perm, n: nat)
    requires IsPerm(p, |p|) && p != [] && 0 < p[0] < n <= |p|
    ensures Fixed(Flip(p, p[0]), n) > Fixed(p, n)
  {
    var k := p[0];
    var q := Flip(p, k);
    if n - 1 == k {
      assert q[k] == k && p[k] != k;
      FixedBelow(p, k);
    } else {
      FlipFixesMore(p, n - 1);
      assert q[n - 1] == p[n - 1];
    }
  }

  /** How many flips bring 0 to the front. */
  function Flips(p: Perm): nat
    requires p != [] && IsPerm(p, |p|)
    decreases Pow2(|p| - 1) - Fixed(p, |p|)
  {
    if p[0] == 0 then 0
    else
      FlipIsPerm(p, p[0], |p|);
      FlipFixesMore(p, |p|);
      FixedBelow(p, |p|);
      FixedBelow(Flip(p, p[0]), |p|);
      1 + Flips(Flip(p, p[0]))
  }

  lemma {:induction false} FlipsBelow(p: Perm)
    requires p != [] && IsPerm(p, |p|)
    ensures Flips(p) < Pow2(|p| - 1) - Fixed(p, |p|)
    decreases Pow2(|p| - 1) - Fixed(p, |p|)
  {
    FixedBelow(p, |p|);
    if p[0] != 0 {
      FlipIsPerm(p, p[0], |p|);
      FlipFixesMore(p, |p|);
      FixedBelow(Flip(p, p[0]), |p|);
      FlipsBelow(Flip(p, p[0]));
    }
  }

  /** The flip loop: fewer than 2^(n-1) flips, for every starting permutation. */
  method CountFlips(p: Perm) returns (flips: nat)
    requires p != [] && IsPerm(p, |p|)
    ensures flips == Flips(p) && flips < Pow2(|p| - 1)
  {
    var perm := p;
    flips := 0;
    var k := perm[0];
    FlipsBelow(p);
    while k != 0
      invariant |perm| == |p| && IsPerm(perm, |p|) && k == perm[0]
      invariant flips + Flips(perm) == Flips(p)
      decreases Flips(perm)
    {
      FlipIsPerm(perm, k, |p|);
      FlipIsReversal(perm, k);
      perm := Sorting.Reversed(perm[..k + 1]) + perm[k + 1..];
      flips := flips + 1;
      k := perm[0];
    }
  }

  /** Exchanging the numbers 0 and m, where m was in place at the end, makes one flip more. */
  function Exchanged(p: Perm): (q: Perm)
    ensures |q| == |p|
  {
    seq(|p|, i requires 0 <= i < |p| => if p[i] == 0 then |p| - 1 else if p[i] == |p| - 1 then 0 else p[i])
  }

  lemma ExchangedIsPerm(p: Perm)
    requires p != [] && IsPerm(p, |p|)
    ensures IsPerm(Exchanged(p), |p|)
  {}

  lemma {:induction false} OneFlipMore(p: Perm)
    requires |p| >= 2 && IsPerm(p, |p|) && p[|p| - 1] == |p| - 1
    ensures IsPerm(Exchanged(p), |p|) && Flips(Exchanged(p)) == Flips(p) + 1
    decreases Flips(p)
  {
    var m := |p| - 1;
    var q := Exchanged(p);
    ExchangedIsPerm(p);
    if p[0] == 0 {
      FlipIsPerm(q, m, |p|);
      assert Flip(q, m)[0] == q[m] == 0;
    } else {
      FlipIsPerm(p, p[0], |p|);
      assert Flip(q, p[0]) == Exchanged(Flip(p, p[0]));
      OneFlipMore(Flip(p, p[0]));
    }
  }

  // ---------------------------------------------------------------------
  // Rotations
  // ---------------------------------------------------------------------

  /** The first `j + 1` entries turned left by `k`; the other entries stay. */
  function Turned(p: Perm, j: nat, k: nat): (q: Perm)
    requires j < |p| && k <= j + 1
    ensures |q| == |p|
  {
    seq(|p|, i requires 0 <= i < |p| => if i > j then p[i] else if i + k <= j then p[i + k] else p[i + k - j - 1])
  }

  lemma TurnedNone(p: Perm, j: nat)
    requires j < |p|
    ensures Turned(p, j, 0) == p && Turned(p, j, j + 1) == p
  {}

  /** The statement that moves the first entry to position `j`. */
  function Rotate(p: Perm, j: nat): (q: Perm)
    requires j < |p|
    ensures |q| == |p|
  {
    p[1..j + 1] + [p[0]] + p[j + 1..]
  }

  lemma RotateTurns(p: Perm, j: nat, k: nat)
    requires j < |p| && k <= j
    ensures Rotate(Turned(p, j, k), j) == Turned(p, j, k + 1)
  {
    var q := Rotate(Turned(p, j, k), j);
    forall i | 0 <= i < |p| ensures q[i] == Turned(p, j, k + 1)[i] {
    }
  }

  lemma TurnedAbove(p: Perm, j: nat, k: nat, i: nat)
    requires j < i < |p| && k <= j + 1
    ensures Turned(p, j, k)[i] == p[i]
  {}

  lemma TurnedIsPerm(p: Perm, j: nat, k: nat, n: nat)
    requires IsPerm(p, n) && j < n && k <= j + 1
    ensures IsPerm(Turned(p, j, k), n)
  {}

  // ---------------------------------------------------------------------
  // The counter
  // ---------------------------------------------------------------------

  /** Digit j counts the rotations of the first j + 1 entries, from 0 to j. */
  predicate IsDigits(c: seq<nat>) {
    forall j :: 0 <= j < |c| ==> c[j] <= j
  }

  function Identity(n: nat): (p: Perm)
    ensures IsPerm(p, n)
  {
    seq(n, i requires 0 <= i < n => i)
  }

  /** The permutation reached by the rotations of the levels `j` and above, the longest first. */
  function Reached(c: seq<nat>, j: nat): (p: Perm)
    requires IsDigits(c) && j <= |c|
    ensures |p| == |c|
    decreases |c| - j
  {
    if j == |c| then Identity(|c|) else Turned(Reached(c, j + 1), j, c[j])
  }

  lemma {:induction false} ReachedIsPerm(c: seq<nat>, j: nat)
    requires IsDigits(c) && j <= |c|
    ensures IsPerm(Reached(c, j), |c|)
    decreases |c| - j
  {
    if j < |c| {
      ReachedIsPerm(c, j + 1);
      TurnedIsPerm(Reached(c, j + 1), j, c[j], |c|);
    }
  }

  /** Later levels leave an entry alone. */
  lemma {:induction false} ReachedAbove(c: seq<nat>, i: nat, j: nat)
    requires IsDigits(c) && i <= j < |c|
    ensures Reached(c, i)[j] == Reached(c, j)[j]
    decreases j - i
  {
    hide Turned;
    if i < j {
      TurnedAbove(Reached(c, i + 1), i, c[i], j);
      ReachedAbove(c, i + 1, j);
    }
  }

  lemma {:induction false} ReachedSame(c: seq<nat>, d: seq<nat>, j: nat)
    requires IsDigits(c) && IsDigits(d) && |c| == |d| && j <= |c| && c[j..] == d[j..]
    ensures Reached(c, j) == Reached(d, j)
    decreases |c| - j
  {
    if j < |c| {
      assert c[j] == c[j..][0] == d[j];
      assert c[j + 1..] == c[j..][1..] == d[j + 1..];
      ReachedSame(c, d, j + 1);
    }
  }

  /** Different digits reach different permutations. */
  lemma {:induction false} ReachedDiffer(c: seq<nat>, d: seq<nat>, j: nat)
    requires IsDigits(c) && IsDigits(d) && |c| == |d| && j <= |c|
    requires forall i :: j <= i < |c| ==> Reached(c, 0)[i] == Reached(d, 0)[i]
    ensures c[j..] == d[j..]
    decreases |c| - j
  {
    if j < |c| {
      ReachedDiffer(c, d, j + 1);
      ReachedSame(c, d, j + 1);
      ReachedAbove(c, 0, j);
      ReachedAbove(d, 0, j);
      ReachedIsPerm(c, j + 1);
      var q := Reached(c, j + 1);
      assert Turned(q, j, c[j])[j] == Turned(q, j, d[j])[j];
      assert c[j] == d[j];
      assert c[j..] == [c[j]] + c[j + 1..] && d[j..] == [d[j]] + d[j + 1..];
    }
  }

  /** The digits that reach a permutation, found from the last entry to the first. */
  lemma {:induction false} DigitsFor(p: Perm, j: nat) returns (c: seq<nat>)
    requires IsPerm(p, |p|) && j <= |p|
    ensures |c| == |p| && IsDigits(c) && forall i :: j <= i < |p| ==> Reached(c, j)[i] == p[i]
    decreases |p| - j
  {
    if j == |p| {
      c := seq(|p|, _ => 0);
    } else {
      var d := DigitsFor(p, j + 1);
      var q := Reached(d, j + 1);
      ReachedIsPerm(d, j + 1);
      var k := Where(q, p, j);
      var turn := if k == j then 0 else k + 1;
      c := d[j := turn];
      ReachedSame(c, d, j + 1);
      assert c[j + 1..] == d[j + 1..];
      assert Turned(q, j, turn)[j] == q[k];
    }
  }

  /** Two permutations that agree after position `j`: the entry there is among the others' first. */
  lemma Where(q: Perm, p: Perm, j: nat) returns (k: nat)
    requires IsPerm(q, |q|) && IsPerm(p, |q|) && j < |q| && forall i :: j < i < |q| ==> q[i] == p[i]
    ensures k <= j && q[k] == p[j]
  {
    Sorting.Pigeonhole(q, |q|);
    var x := p[j];
    assert x in q;
    k :| k < |q| && q[k] == x;
  }

  // ---------------------------------------------------------------------
  // Counting in factorials
  // ---------------------------------------------------------------------

  function Factorial(n: nat): (r: nat)
    ensures r > 0
  {
    if n == 0 then 1
    else
      ProductIsPositive(n, Factorial(n - 1));
      n * Factorial(n - 1)
  }

  lemma ProductIsPositive(a: nat, b: nat)
    requires a > 0 && b > 0
    ensures a * b > 0
  {}

  /** The number that the first `n` digits stand for: digit j counts for j!. */
  function Index(c: seq<nat>, n: nat): nat
    requires n <= |c|
  {
    if n == 0 then 0 else Index(c, n - 1) + c[n - 1] * Factorial(n - 1)
  }

  lemma {:induction false} IndexBelow(c: seq<nat>, n: nat)
    requires IsDigits(c) && n <= |c|
    ensures Index(c, n) < Factorial(n)
  {
    if n > 0 {
      IndexBelow(c, n - 1);
      DigitFits(c[n - 1], n - 1, Factorial(n - 1));
    }
  }

  lemma DigitFits(d: nat, n: nat, f: nat)
    requires d <= n
    ensures d * f + f <= (n + 1) * f
  {
    assert (d + 1) * f <= (n + 1) * f;
  }

  /** The digits are determined by the number. */
  lemma {:induction false} IndexDiffers(c: seq<nat>, d: seq<nat>, n: nat)
    requires IsDigits(c) && IsDigits(d) && n <= |c| && n <= |d| && Index(c, n) == Index(d, n)
    ensures c[..n] == d[..n]
  {
    if n > 0 {
      IndexBelow(c, n - 1);
      IndexBelow(d, n - 1);
      SameDigit(Index(c, n - 1), c[n - 1], Index(d, n - 1), d[n - 1], Factorial(n - 1));
      IndexDiffers(c, d, n - 1);
      assert c[..n] == c[..n - 1] + [c[n - 1]] && d[..n] == d[..n - 1] + [d[n - 1]];
    }
  }

  lemma SameDigit(a: nat, x: nat, b: nat, y: nat, f: nat)
    requires a < f && b < f && a + x * f == b + y * f
    ensures x == y && a == b
  {
    if x < y {
      LessDigit(a, x, b, y, f);
    } else if y < x {
      LessDigit(b, y, a, x, f);
    }
  }

  lemma LessDigit(a: nat, x: nat, b: nat, y: nat, f: nat)
    requires a < f && x < y
    ensures a + x * f < b + y * f
  {
    assert (x + 1) * f <= y * f;
  }

  /** All digits below `n` at their highest. */
  lemma {:induction false} IndexFull(c: seq<nat>, n: nat)
    requires n <= |c| && forall j :: 0 <= j < n ==> c[j] == j
    ensures Index(c, n) == Factorial(n) - 1
  {
    if n > 0 {
      IndexFull(c, n - 1);
      assert (n - 1) * Factorial(n - 1) + Factorial(n - 1) == n * Factorial(n - 1);
    }
  }

  lemma {:induction false} IndexNone(c: seq<nat>, n: nat)
    requires n <= |c| && forall j :: 0 <= j < n ==> c[j] == 0
    ensures Index(c, n) == 0
  {
    if n > 0 {
      IndexNone(c, n - 1);
    }
  }

  /** The next digits: those below `r` start again, digit `r` goes up. */
  function Next(c: seq<nat>, r: nat): (d: seq<nat>)
    requires r < |c|
    ensures |d| == |c|
  {
    seq(|c|, j requires 0 <= j < |c| => if j < r then 0 else if j == r then c[j] + 1 else c[j])
  }

  /** It is the next number. */
  lemma {:induction false} NextIsOneMore(c: seq<nat>, r: nat, n: nat)
    requires r < n <= |c| && forall j :: 0 <= j < r ==> c[j] == j
    ensures Index(Next(c, r), n) == Index(c, n) + 1
  {
    var d := Next(c, r);
    if n == r + 1 {
      IndexFull(c, r);
      IndexNone(d, r);
      assert (c[r] + 1) * Factorial(r) == c[r] * Factorial(r) + Factorial(r);
    } else {
      NextIsOneMore(c, r, n - 1);
    }
  }

  // ---------------------------------------------------------------------
  // The whole benchmark
  // ---------------------------------------------------------------------

  /** Permutations that the program does not skip. */
  predicate Counted(p: Perm)
    requires p != []
  {
    p[0] != 0 && p[|p| - 1] != |p| - 1
  }

  /** What the loop has done: `visited[k]` was reached by the digits of k. */
  ghost predicate Log(codes: seq<seq<nat>>, visited: seq<Perm>, n: nat) {
    && |codes| == |visited|
    && forall k :: 0 <= k < |codes| ==>
      && |codes[k]| == n && IsDigits(codes[k]) && Index(codes[k], n) == k && visited[k] == Reached(codes[k], 0)
  }

  /** `m` is the most flips of the permutations in `visited` that count. */
  ghost predicate Best(visited: seq<Perm>, n: nat, m: nat) {
    && (forall k :: 0 <= k < |visited| ==> |visited[k]| == n > 0 && IsPerm(visited[k], n))
    && (forall k :: 0 <= k < |visited| && Counted(visited[k]) ==> Flips(visited[k]) <= m)
    && (m == 0 || exists k :: 0 <= k < |visited| && Flips(visited[k]) == m)
  }

  lemma {:induction false} ReachedZeros(c: seq<nat>, i: nat, r: nat)
    requires IsDigits(c) && i <= r <= |c| && forall j :: i <= j < r ==> c[j] == 0
    ensures Reached(c, i) == Reached(c, r)
    decreases r - i
  {
    if i < r {
      ReachedZeros(c, i + 1, r);
      TurnedNone(Reached(c, i + 1), i);
    }
  }

  /** The digits while the counter is carried: below `r` full, `count` tells the others. */
  ghost predicate Carrying(c: seq<nat>, count: seq<nat>, perm1: Perm, r: nat, n: nat) {
    && |c| == |count| == n && IsDigits(c) && 1 <= r <= n
    && (forall j :: 0 <= j < r ==> c[j] == j)
    && (forall j :: r <= j < n ==> count[j] == j + 1 - c[j])
    && perm1 == Reached(c, r)
  }

  /** The digits at the start of a round: below `r` zero. */
  ghost predicate Starting(c: seq<nat>, count: seq<nat>, perm1: Perm, r: nat, n: nat) {
    && |c| == |count| == n && IsDigits(c) && 1 <= r <= n
    && (forall j :: 0 <= j < r ==> c[j] == 0)
    && (forall j :: r <= j < n ==> count[j] == j + 1 - c[j])
    && perm1 == Reached(c, 0)
  }

  lemma RoundStarts(c: seq<nat>, count: seq<nat>, perm: Perm, r: nat, n: nat)
    requires Carrying(c, count, perm, r, n) && r < n && count[r] > 1
    ensures c[r] < r && Starting(Next(c, r), count[r := count[r] - 1], Rotate(perm, r), r, n)
    ensures Index(Next(c, r), n) == Index(c, n) + 1
  {
    var d := Next(c, r);
    RotateTurns(Reached(c, r + 1), r, c[r]);
    ReachedSame(c, d, r + 1);
    assert c[r + 1..] == d[r + 1..];
    ReachedZeros(d, 0, r);
    NextIsOneMore(c, r, n);
  }

  lemma CarryGoesOn(c: seq<nat>, count: seq<nat>, perm: Perm, r: nat, n: nat)
    requires Carrying(c, count, perm, r, n) && r < n && count[r] == 1
    ensures Carrying(c, count[r := count[r] - 1], Rotate(perm, r), r + 1, n)
  {
    RotateTurns(Reached(c, r + 1), r, c[r]);
    TurnedNone(Reached(c, r + 1), r);
  }

  /** The counter is advanced: false when all digits were full. */
  method Advance(perm0: Perm, count0: seq<nat>, ghost c: seq<nat>, n: nat)
    returns (more: bool, perm1: Perm, count: seq<nat>, r: nat, ghost d: seq<nat>)
    requires n >= 1 && |c| == |count0| == n && IsDigits(c) && perm0 == Reached(c, 0)
    requires forall j :: 1 <= j < n ==> count0[j] == j + 1 - c[j]
    ensures more ==> Starting(d, count, perm1, r, n) && Index(d, n) == Index(c, n) + 1
    ensures !more ==> Index(c, n) == Factorial(n) - 1
  {
    perm1, count, r, d := perm0, count0, 1, c;
    ReachedZeros(c, 0, 1);
    while r != n
      invariant Carrying(c, count, perm1, r, n)
      decreases n - r
    {
      ghost var count', perm := count, perm1;
      perm1 := Rotate(perm1, r);
      count := count[r := count[r] - 1];
      if count[r] > 0 {
        d := Next(c, r);
        RoundStarts(c, count', perm, r, n);
        more := true;
        return;
      }
      CarryGoesOn(c, count', perm, r, n);
      r := r + 1;
    }
    IndexFull(c, n);
    more := false;
  }

  /** The loop that refills the lower counts. */
  method Refill(count0: seq<nat>, r0: nat, n: nat, ghost c: seq<nat>) returns (count: seq<nat>)
    requires |c| == |count0| == n && 1 <= r0 <= n
    requires forall j :: 0 <= j < r0 ==> c[j] == 0
    requires forall j :: r0 <= j < n ==> count0[j] == j + 1 - c[j]
    ensures |count| == n && forall j :: 1 <= j < n ==> count[j] == j + 1 - c[j]
  {
    var r := r0;
    count := count0;
    while r != 1
      invariant 1 <= r <= r0 && |count| == n
      invariant forall j :: r <= j < n ==> count[j] == j + 1 - c[j]
      decreases r
    {
      count := count[r - 1 := r];
      r := r - 1;
    }
  }

  lemma {:induction false} LogMore(codes: seq<seq<nat>>, visited: seq<Perm>, n: nat, c: seq<nat>)
    requires Log(codes, visited, n) && |c| == n && IsDigits(c) && Index(c, n) == |visited|
    ensures Log(codes + [c], visited + [Reached(c, 0)], n)
  {}

  lemma BestMore(visited: seq<Perm>, n: nat, m: nat, p: Perm, m': nat)
    requires Best(visited, n, m) && n > 0 && IsPerm(p, n)
    requires m' == if Counted(p) && Flips(p) > m then Flips(p) else m
    ensures Best(visited + [p], n, m')
  {
    var more := visited + [p];
    assert forall k :: 0 <= k < |visited| ==> more[k] == visited[k];
    assert more[|visited|] == p;
    if m' == m && m != 0 {
      var k :| 0 <= k < |visited| && Flips(visited[k]) == m;
      assert Flips(more[k]) == m;
    }
  }

  /** Every permutation is in a log of n! rounds, and none twice. */
  lemma LogHasAll(codes: seq<seq<nat>>, visited: seq<Perm>, n: nat)
    requires Log(codes, visited, n) && |visited| == Factorial(n)
    ensures forall k, l :: 0 <= k < l < |visited| ==> visited[k] != visited[l]
    ensures forall p :: IsPerm(p, n) ==> p in visited
  {
    forall k, l | 0 <= k < l < |visited| ensures visited[k] != visited[l] {
      OthersDiffer(codes[k], codes[l], n);
    }
    forall p | IsPerm(p, n) ensures p in visited {
      LogHas(codes, visited, n, p);
    }
  }

  lemma {:induction false} OthersDiffer(c: seq<nat>, d: seq<nat>, n: nat)
    requires |c| == |d| == n && IsDigits(c) && IsDigits(d) && Index(c, n) != Index(d, n)
    ensures Reached(c, 0) != Reached(d, 0)
  {
    assert c == c[0..] && d == d[0..];
    if Reached(c, 0) == Reached(d, 0) {
      ReachedDiffer(c, d, 0);
    }
  }

  lemma LogHas(codes: seq<seq<nat>>, visited: seq<Perm>, n: nat, p: Perm)
    requires Log(codes, visited, n) && |visited| == Factorial(n) && IsPerm(p, n)
    ensures p in visited
  {
    var c := DigitsFor(p, 0);
    IndexBelow(c, n);
    var k := Index(c, n);
    IndexDiffers(codes[k], c, n);
    assert codes[k] == codes[k][..n] && c == c[..n];
    assert visited[k] == Reached(c, 0) == p;
  }

  /** Skipping permutations with the first or the last number in place misses no maximum. */
  lemma BestOfAll(visited: seq<Perm>, n: nat, m: nat, p: Perm)
    requires Best(visited, n, m) && n > 0 && IsPerm(p, n) && forall q :: IsPerm(q, n) ==> q in visited
    ensures Flips(p) <= m
  {
    if p[0] != 0 {
      var q := p;
      if p[n - 1] == n - 1 {
        OneFlipMore(p);
        q := Exchanged(p);
      }
      assert q in visited;
      var k :| 0 <= k < |visited| && visited[k] == q;
    }
  }

  /** The most flips of all permutations of 0, ..., n - 1; each of them is visited exactly once. */
  method MaxFlips(n: nat) returns (maxFlips: nat, ghost visited: seq<Perm>)
    requires n >= 1
    ensures |visited| == Factorial(n)
    ensures forall k, l :: 0 <= k < l < |visited| ==> visited[k] != visited[l]
    ensures forall p :: p in visited <==> IsPerm(p, n)
    ensures forall p :: IsPerm(p, n) ==> Flips(p) <= maxFlips
    ensures exists p :: IsPerm(p, n) && Flips(p) == maxFlips
  {
    var count: seq<nat> := seq(n, i => i + 1);
    var r := n;
    var perm1 := Identity(n);
    maxFlips, visited := 0, [];
    ghost var codes: seq<seq<nat>> := [];
    ghost var c: seq<nat> := seq(n, _ => 0);
    IndexNone(c, n);
    ReachedZeros(c, 0, n);
    var more := true;
    while more
      invariant Log(codes, visited, n) && Best(visited, n, maxFlips)
      invariant more ==> Starting(c, count, perm1, r, n) && Index(c, n) == |visited|
      invariant !more ==> |visited| == Factorial(n)
      decreases Factorial(n) - |visited|, more
    {
      count := Refill(count, r, n, c);
      ReachedIsPerm(c, 0);
      LogMore(codes, visited, n, c);
      IndexBelow(c, n);
      ghost var before := maxFlips;
      if perm1[0] != 0 && perm1[n - 1] != n - 1 {
        var flips := CountFlips(perm1);
        if flips > maxFlips {
          maxFlips := flips;
        }
      }
      BestMore(visited, n, before, perm1, maxFlips);
      codes, visited := codes + [c], visited + [perm1];
      more, perm1, count, r, c := Advance(perm1, count, c, n);
    }
    LogHasAll(codes, visited, n);
    forall p | IsPerm(p, n) ensures Flips(p) <= maxFlips {
      BestOfAll(visited, n, maxFlips, p);
    }
    BestIsReached(visited, n, maxFlips);
  }

  lemma BestIsReached(visited: seq<Perm>, n: nat, m: nat)
    requires Best(visited, n, m) && n >= 1
    ensures forall p :: p in visited ==> IsPerm(p, n)
    ensures exists p :: IsPerm(p, n) && Flips(p) == m
  {
    if m == 0 {
      assert Flips(Identity(n)) == 0;
    }
  }
}
