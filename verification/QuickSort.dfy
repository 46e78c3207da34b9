/**
  The quicksort of multithread/quick_sort/quick_sort.py: the in-place sort, and the same
  sort as tasks that any number of threads advance one loop iteration at a time in any order.
 */
module QuickSort {

  // ---------------------------------------------------------------------
  // qsort
  // ---------------------------------------------------------------------

  /** `t` is `s` with the elements of positions a..b in some other order. */
  ghost predicate Rearranged(s: seq<int>, t: seq<int>, a: int, b: int) {
    && 0 <= a <= b <= |s| == |t|
    && multiset(s[a..b]) == multiset(t[a..b])
    && s[..a] == t[..a] && s[b..] == t[b..]
  }

  lemma NothingRearranged(s: seq<int>, a: int, b: int)
    requires 0 <= a <= b <= |s|
    ensures Rearranged(s, s, a, b)
  {}

  lemma RearrangedAgain(s: seq<int>, t: seq<int>, u: seq<int>, a: int, b: int)
    requires Rearranged(s, t, a, b) && Rearranged(t, u, a, b)
    ensures Rearranged(s, u, a, b)
  {}

  lemma SwapRearranges(s: seq<int>, a: int, b: int, i: int, j: int)
    requires 0 <= a <= i < b <= |s| && a <= j < b
    ensures Rearranged(s, Swapped(s, i, j), a, b)
  {
    var t := Swapped(s, i, j);
    var u := s[a..b];
    assert t[a..b] == u[i - a := u[j - a]][j - a := u[i - a]];
  }

  /** Everything up to `l` is at most the pivot, everything after `r` at least. */
  ghost predicate Split(s: seq<int>, lo: int, hi: int, l: int, r: int, pivot: int) {
    && 0 <= lo <= r + 1 <= l <= r + 2 && l <= hi <= |s|
    && (forall k :: lo <= k < l ==> s[k] <= pivot)
    && (forall k :: r < k < hi ==> s[k] >= pivot)
  }

  /** A call that has not begun, or one inside its loop. */
  datatype Task =
    | Call(lo: int, n: int)
    | Loop(lo: int, n: int, pivot: int, l: int, r: int)
  {
    function Hi(): int {
      lo + n
    }
  }

  /** A task works inside the sequence, and its loop has swapped, or not yet passed the pivot. */
  ghost predicate TaskValid(xs: seq<int>, t: Task) {
    && TaskInside(xs, t)
    && (t.Loop? ==>
      && t.n >= 2 && t.l <= t.r + 2
      && (forall k :: t.lo <= k < t.l ==> xs[k] <= t.pivot)
      && (forall k :: t.r < k < t.Hi() ==> xs[k] >= t.pivot)
      && ((t.lo < t.l && t.r < t.Hi() - 1)
          || (t.l <= t.lo + t.n / 2 <= t.r && xs[t.lo + t.n / 2] == t.pivot)))
  }

  predicate TaskInside(xs: seq<int>, t: Task) {
    && 0 <= t.lo && 0 <= t.n && t.Hi() <= |xs|
    && (t.Loop? ==> t.lo <= t.l <= t.Hi() && t.lo - 1 <= t.r < t.Hi())
  }

  lemma LeftMoves(xs: seq<int>, t: Task)
    requires t.Loop? && TaskValid(xs, t) && 0 <= t.l <= t.r < |xs| && xs[t.l] < t.pivot
    ensures TaskValid(xs, t.(l := t.l + 1))
  {}

  lemma RightMoves(xs: seq<int>, t: Task)
    requires t.Loop? && TaskValid(xs, t) && 0 <= t.l <= t.r < |xs| && xs[t.r] > t.pivot
    ensures TaskValid(xs, t.(r := t.r - 1))
  {}

  function Swapped(s: seq<int>, i: int, j: int): seq<int>
    requires 0 <= i < |s| && 0 <= j < |s|
  {
    s[i := s[j]][j := s[i]]
  }

  lemma BothMove(xs: seq<int>, t: Task)
    requires t.Loop? && TaskValid(xs, t) && 0 <= t.l <= t.r < |xs| && xs[t.l] >= t.pivot && xs[t.r] <= t.pivot
    ensures TaskValid(Swapped(xs, t.l, t.r), t.(l := t.l + 1, r := t.r - 1))
  {}

  /** The loop ends with a split into two ranges, each shorter than the whole. */
  lemma LoopEnds(xs: seq<int>, t: Task)
    requires t.Loop? && TaskValid(xs, t) && t.l > t.r
    ensures Split(xs, t.lo, t.Hi(), t.l, t.r, t.pivot)
    ensures t.lo <= t.r + 1 <= t.l <= t.Hi() && t.lo < t.l && t.r < t.Hi() - 1
  {}

  lemma LoopBegins(xs: seq<int>, lo: int, n: int)
    requires 0 <= lo && n >= 2 && lo + n <= |xs|
    ensures TaskValid(xs, Loop(lo, n, xs[lo + n / 2], lo, lo + n - 1))
  {}

  /** One iteration of the loop. */
  method Advance(xs: array<int>, ghost l0: int, ghost n: int, p: int, l: int, r: int) returns (l': int, r': int)
    requires TaskValid(xs[..], Loop(l0, n, p, l, r)) && 0 <= l0 <= l <= r < l0 + n <= xs.Length
    modifies xs
    ensures TaskValid(xs[..], Loop(l0, n, p, l', r')) && l' - r' > l - r && l <= l' && r' <= r
    ensures Rearranged(old(xs[..]), xs[..], l0, l0 + n)
  {
    hide TaskValid, Rearranged;
    ghost var now, task := xs[..], Loop(l0, n, p, l, r);
    NothingRearranged(now, l0, l0 + n);
    if xs[l] < p {
      LeftMoves(now, task);
      return l + 1, r;
    } else if xs[r] > p {
      RightMoves(now, task);
      return l, r - 1;
    } else {
      BothMove(now, task);
      SwapRearranges(now, l0, l0 + n, l, r);
      xs[l], xs[r] := xs[r], xs[l];
      assert xs[..] == Swapped(now, l, r);
      return l + 1, r - 1;
    }
  }

  /** Splits a range of two or more elements around the one in its middle. */
  method Partition(xs: array<int>, l0: nat, n: nat) returns (l: int, r: int, ghost pivot: int)
    requires n >= 2 && l0 + n <= xs.Length
    modifies xs
    ensures Rearranged(old(xs[..]), xs[..], l0, l0 + n)
    ensures Split(xs[..], l0, l0 + n, l, r, pivot)
    ensures l0 <= r + 1 <= l <= l0 + n && l0 < l && r < l0 + n - 1
  {
    hide Rearranged, TaskValid, Split;
    var p := xs[l0 + n / 2];
    pivot := p;
    l, r := l0, l0 + n - 1;
    ghost var start, now := xs[..], xs[..];
    NothingRearranged(start, l0, l0 + n);
    LoopBegins(start, l0, n);
    while l <= r
      invariant l0 <= l && r < l0 + n
      invariant now == xs[..] && TaskValid(now, Loop(l0, n, p, l, r))
      invariant Rearranged(start, now, l0, l0 + n)
      decreases r - l
    {
      l, r := Advance(xs, l0, n, p, l, r);
      RearrangedAgain(start, now, xs[..], l0, l0 + n);
      now := xs[..];
    }
    LoopEnds(now, Loop(l0, n, p, l, r));
  }

  ghost predicate SortedRange(s: seq<int>, lo: int, hi: int)
    requires 0 <= lo <= hi <= |s|
  {
    forall i, j :: lo <= i < j < hi ==> s[i] <= s[j]
  }

  /** Rearranging part of a range rearranges the range. */
  lemma RearrangedPart(s: seq<int>, t: seq<int>, lo: nat, hi: nat, a: nat, b: nat)
    requires Rearranged(s, t, a, b) && lo <= a && b <= hi <= |s|
    ensures Rearranged(s, t, lo, hi)
  {
    assert s[lo..hi] == s[..a][lo..] + s[a..b] + s[b..][..hi - b];
    assert t[lo..hi] == t[..a][lo..] + t[a..b] + t[b..][..hi - b];
    assert s[..lo] == s[..a][..lo] && t[..lo] == t[..a][..lo];
    assert s[hi..] == s[b..][hi - b..] && t[hi..] == t[b..][hi - b..];
  }

  /** Nothing outside the range changes, and inside it every element was there before. */
  lemma RearrangedElements(s: seq<int>, t: seq<int>, a: int, b: int)
    requires Rearranged(s, t, a, b)
    ensures forall k :: 0 <= k < a || b <= k < |t| ==> t[k] == s[k]
    ensures forall k :: a <= k < b ==> exists m :: a <= m < b && s[m] == t[k]
  {
    forall k | 0 <= k < a || b <= k < |t| ensures t[k] == s[k] {
      if k < a {
        assert t[..a][k] == s[..a][k];
      } else {
        assert t[b..][k - b] == s[b..][k - b];
      }
    }
    forall k | a <= k < b ensures exists m :: a <= m < b && s[m] == t[k] {
      assert t[a..b][k - a] in multiset(t[a..b]);
      var m :| 0 <= m < b - a && s[a..b][m] == t[k];
      assert s[a + m] == t[k];
    }
  }

  lemma SplitKept(s: seq<int>, t: seq<int>, lo: int, hi: int, l: int, r: int, pivot: int, a: int, b: int)
    requires Split(s, lo, hi, l, r, pivot) && Rearranged(s, t, a, b)
    requires (a == lo && b == r + 1) || (a == l && b == hi)
    ensures Split(t, lo, hi, l, r, pivot)
  {
    RearrangedElements(s, t, a, b);
  }

  /** Sorting both sides of a split sorts the whole range. */
  lemma SplitSorted(s: seq<int>, lo: int, hi: int, l: int, r: int, pivot: int)
    requires Split(s, lo, hi, l, r, pivot) && SortedRange(s, lo, r + 1) && SortedRange(s, l, hi)
    ensures SortedRange(s, lo, hi)
  {}

  /** Sorts a range in place. */
  method QSort(xs: array<int>, l0: nat, n: nat)
    requires l0 + n <= xs.Length
    modifies xs
    ensures Rearranged(old(xs[..]), xs[..], l0, l0 + n)
    ensures SortedRange(xs[..], l0, l0 + n)
    decreases n
  {
    if n < 2 {
      return;
    }
    hide Rearranged, Split, SortedRange;
    ghost var s0 := xs[..];
    var l, r, pivot := Partition(xs, l0, n);
    ghost var s1 := xs[..];
    QSort(xs, l0, r - l0 + 1);
    ghost var s2 := xs[..];
    QSort(xs, l, l0 + n - l);
    BothSidesSorted(s0, s1, s2, xs[..], l0, l0 + n, l, r, pivot);
  }

  lemma BothSidesSorted(
    s0: seq<int>, s1: seq<int>, s2: seq<int>, s3: seq<int>, lo: int, hi: int, l: int, r: int, pivot: int)
    requires 0 <= lo <= r + 1 <= l <= hi
    requires Rearranged(s0, s1, lo, hi) && Split(s1, lo, hi, l, r, pivot)
    requires Rearranged(s1, s2, lo, r + 1) && r + 1 <= |s2| && SortedRange(s2, lo, r + 1)
    requires Rearranged(s2, s3, l, hi) && hi <= |s3| && SortedRange(s3, l, hi)
    ensures Rearranged(s0, s3, lo, hi) && SortedRange(s3, lo, hi)
  {
    assert |s1| == |s2| == |s3|;
    hide Rearranged, Split, SortedRange;
    SplitKept(s1, s2, lo, hi, l, r, pivot, lo, r + 1);
    SplitKept(s2, s3, lo, hi, l, r, pivot, l, hi);
    LeftStays(s2, s3, lo, r + 1, l, hi);
    SplitSorted(s3, lo, hi, l, r, pivot);
    RearrangedPart(s1, s2, lo, hi, lo, r + 1);
    RearrangedPart(s2, s3, lo, hi, l, hi);
    RearrangedAgain(s0, s1, s2, lo, hi);
    RearrangedAgain(s0, s2, s3, lo, hi);
  }

  lemma LeftStays(s: seq<int>, t: seq<int>, lo: int, m: int, a: int, b: int)
    requires Rearranged(s, t, a, b) && 0 <= lo <= m <= a && SortedRange(s, lo, m)
    ensures SortedRange(t, lo, m)
  {
    RearrangedElements(s, t, a, b);
  }

  // ---------------------------------------------------------------------
  // The sort as tasks
  // ---------------------------------------------------------------------

  datatype State = State(xs: seq<int>, tasks: seq<Task>)

  /** One iteration of task `i`: begin, compare and move, swap, or split into two calls. */
  function Step(s: State, i: nat): State
    requires i < |s.tasks| && TaskInside(s.xs, s.tasks[i])
  {
    var t, before, after := s.tasks[i], s.tasks[..i], s.tasks[i + 1..];
    match t
    case Call(lo, n) =>
      if n < 2 then State(s.xs, before + after)
      else State(s.xs, before + [Loop(lo, n, s.xs[lo + n / 2], lo, lo + n - 1)] + after)
    case Loop(lo, n, pivot, l, r) =>
      if l > r then State(s.xs, before + [Call(lo, r - lo + 1), Call(l, lo + n - l)] + after)
      else if s.xs[l] < pivot then State(s.xs, before + [t.(l := l + 1)] + after)
      else if s.xs[r] > pivot then State(s.xs, before + [t.(r := r - 1)] + after)
      else State(Swapped(s.xs, l, r), before + [t.(l := l + 1, r := r - 1)] + after)
  }

  ghost predicate Apart(t: Task, u: Task) {
    t.Hi() <= u.lo || u.Hi() <= t.lo
  }

  ghost predicate Within(t: Task, i: int, j: int) {
    t.lo <= i && j < t.Hi()
  }

  /** Two positions are in order unless some pending task still covers both. */
  ghost predicate Settled(s: State) {
    forall i, j :: 0 <= i < j < |s.xs| ==> s.xs[i] <= s.xs[j] || Covered(s.tasks, i, j)
  }

  ghost predicate Inv(s: State, original: seq<int>) {
    && multiset(s.xs) == multiset(original)
    && (forall a :: 0 <= a < |s.tasks| ==> TaskValid(s.xs, s.tasks[a]))
    && AllApart(s.tasks)
    && Settled(s)
  }

  ghost predicate Covered(tasks: seq<Task>, i: int, j: int) {
    exists a :: 0 <= a < |tasks| && Within(tasks[a], i, j)
  }

  /** `next` is `tasks` with task `i` replaced by the tasks `parts`. */
  ghost predicate Replaces(tasks: seq<Task>, i: nat, parts: seq<Task>, next: seq<Task>) {
    i < |tasks| && next == tasks[..i] + parts + tasks[i + 1..]
  }

  /** Where the task at `a` of the new list comes from. */
  lemma Origin(tasks: seq<Task>, i: nat, parts: seq<Task>, next: seq<Task>, a: nat)
    requires Replaces(tasks, i, parts, next) && a < |next|
    ensures a < i ==> next[a] == tasks[a]
    ensures i <= a < i + |parts| ==> next[a] == parts[a - i]
    ensures i + |parts| <= a ==> i < a - |parts| + 1 < |tasks| && next[a] == tasks[a - |parts| + 1]
  {}

  lemma StillCovered(tasks: seq<Task>, i: nat, parts: seq<Task>, next: seq<Task>, p: int, q: int)
    requires Replaces(tasks, i, parts, next) && Covered(tasks, p, q)
    requires Within(tasks[i], p, q) ==> Covered(parts, p, q)
    ensures Covered(next, p, q)
  {
    if Covered(parts, p, q) {
      var b :| 0 <= b < |parts| && Within(parts[b], p, q);
      assert next[i + b] == parts[b];
    } else {
      var a :| 0 <= a < |tasks| && Within(tasks[a], p, q);
      assert next[if a < i then a else a + |parts| - 1] == tasks[a];
    }
  }

  /** Rearranging a range cannot disturb a task that works elsewhere. */
  lemma OthersStayValid(xs: seq<int>, ys: seq<int>, t: Task, u: Task)
    requires Rearranged(xs, ys, t.lo, t.Hi()) && TaskValid(xs, u) && Apart(t, u)
    ensures TaskValid(ys, u)
  {
    RearrangedElements(xs, ys, t.lo, t.Hi());
    hide Rearranged;
  }

  lemma RearrangedMultiset(s: seq<int>, t: seq<int>, a: int, b: int)
    requires Rearranged(s, t, a, b)
    ensures multiset(s) == multiset(t)
  {
    assert s == s[..a] + s[a..b] + s[b..];
    assert t == t[..a] + t[a..b] + t[b..];
  }

  /** A pair with one end outside the rearranged range stays in order. */
  lemma OutsidePairsStay(s: State, i: nat, ys: seq<int>, p: int, q: int)
    requires i < |s.tasks| && Rearranged(s.xs, ys, s.tasks[i].lo, s.tasks[i].Hi())
    requires Settled(s) && forall a :: 0 <= a < |s.tasks| && a != i ==> Apart(s.tasks[a], s.tasks[i])
    requires 0 <= p < q < |ys| && !Covered(s.tasks, p, q)
    ensures ys[p] <= ys[q]
  {
    var t := s.tasks[i];
    RearrangedElements(s.xs, ys, t.lo, t.Hi());
    assert !Within(t, p, q);
    hide Rearranged, Covered;
    if t.lo <= q < t.Hi() {
      var m :| t.lo <= m < t.Hi() && s.xs[m] == ys[q];
      NotCoveredAcross(s.tasks, i, p, m);
    } else if t.lo <= p < t.Hi() {
      var m :| t.lo <= m < t.Hi() && s.xs[m] == ys[p];
      NotCoveredAcross(s.tasks, i, m, q);
    }
  }

  /** No task covers a position of another task together with one outside of it. */
  lemma NotCoveredAcross(tasks: seq<Task>, i: nat, p: int, q: int)
    requires i < |tasks| && forall a :: 0 <= a < |tasks| && a != i ==> Apart(tasks[a], tasks[i])
    requires p < q && !Within(tasks[i], p, q)
    requires tasks[i].lo <= p < tasks[i].Hi() || tasks[i].lo <= q < tasks[i].Hi()
    ensures !Covered(tasks, p, q)
  {}

  ghost predicate AllApart(tasks: seq<Task>) {
    forall a, b :: 0 <= a < b < |tasks| ==> Apart(tasks[a], tasks[b])
  }

  lemma ReplaceKeepsApart(tasks: seq<Task>, i: nat, parts: seq<Task>, next: seq<Task>)
    requires Replaces(tasks, i, parts, next) && AllApart(tasks) && AllApart(parts)
    requires forall b :: 0 <= b < |parts| ==> tasks[i].lo <= parts[b].lo && parts[b].Hi() <= tasks[i].Hi()
    ensures AllApart(next)
  {
    forall a, b | 0 <= a < b < |next| ensures Apart(next[a], next[b]) {
      Origin(tasks, i, parts, next, a);
      Origin(tasks, i, parts, next, b);
    }
  }

  /**
    Replacing a task by tasks on parts of its range, after rearranging that range,
    keeps the invariant if only pairs that the new tasks cover are left unordered.
   */
  lemma ReplaceKeepsInv(s: State, original: seq<int>, i: nat, parts: seq<Task>, s': State)
    requires Inv(s, original) && Replaces(s.tasks, i, parts, s'.tasks)
    requires var t := s.tasks[i];
      && Rearranged(s.xs, s'.xs, t.lo, t.Hi())
      && (forall b :: 0 <= b < |parts| ==> TaskValid(s'.xs, parts[b]) && t.lo <= parts[b].lo && parts[b].Hi() <= t.Hi())
      && AllApart(parts)
      && (forall p, q :: 0 <= p < q < |s'.xs| && Within(t, p, q) ==> s'.xs[p] <= s'.xs[q] || Covered(parts, p, q))
    ensures Inv(s', original)
  {
    hide TaskValid, Rearranged, Covered, Within;
    var t := s.tasks[i];
    RearrangedMultiset(s.xs, s'.xs, t.lo, t.Hi());
    ReplaceKeepsApart(s.tasks, i, parts, s'.tasks);
    forall a | 0 <= a < |s'.tasks| ensures TaskValid(s'.xs, s'.tasks[a]) {
      Origin(s.tasks, i, parts, s'.tasks, a);
      if a < i {
        OthersStayValid(s.xs, s'.xs, t, s.tasks[a]);
      } else if i + |parts| <= a {
        OthersStayValid(s.xs, s'.xs, t, s.tasks[a - |parts| + 1]);
      }
    }
    RearrangedLength(s.xs, s'.xs, t.lo, t.Hi());
    forall p, q | 0 <= p < q < |s'.xs| ensures s'.xs[p] <= s'.xs[q] || Covered(s'.tasks, p, q) {
      if !Covered(s.tasks, p, q) {
        OutsidePairsStay(s, i, s'.xs, p, q);
      } else if Within(t, p, q) && s'.xs[p] <= s'.xs[q] {
      } else {
        StillCovered(s.tasks, i, parts, s'.tasks, p, q);
      }
    }
  }

  lemma RearrangedLength(s: seq<int>, t: seq<int>, a: int, b: int)
    requires Rearranged(s, t, a, b)
    ensures |s| == |t|
  {}

  /** Every iteration of every task, in whatever order they come, keeps the invariant. */
  lemma StepKeepsInv(s: State, original: seq<int>, i: nat)
    requires Inv(s, original) && i < |s.tasks|
    ensures TaskInside(s.xs, s.tasks[i]) && Inv(Step(s, i), original)
  {
    var t := s.tasks[i];
    assert TaskValid(s.xs, t);
    match t
    case Call(lo, n) =>
      if n < 2 {
        DropKeepsInv(s, original, i);
      } else {
        BeginKeepsInv(s, original, i);
      }
    case Loop(lo, n, pivot, l, r) =>
      if l > r {
        SplitKeepsInv(s, original, i);
      } else {
        IterateKeepsInv(s, original, i);
      }
  }

  lemma DropKeepsInv(s: State, original: seq<int>, i: nat)
    requires Inv(s, original) && i < |s.tasks| && TaskInside(s.xs, s.tasks[i])
    requires s.tasks[i].Call? && s.tasks[i].n < 2
    ensures Inv(Step(s, i), original)
  {
    var t := s.tasks[i];
    NothingRearranged(s.xs, t.lo, t.Hi());
    assert s.tasks[..i] + [] + s.tasks[i + 1..] == Step(s, i).tasks;
    hide Inv, Rearranged;
    ReplaceKeepsInv(s, original, i, [], Step(s, i));
  }

  lemma BeginKeepsInv(s: State, original: seq<int>, i: nat)
    requires Inv(s, original) && i < |s.tasks| && TaskInside(s.xs, s.tasks[i])
    requires s.tasks[i].Call? && s.tasks[i].n >= 2
    ensures Inv(Step(s, i), original)
  {
    hide Inv, Rearranged, TaskValid;
    var t := s.tasks[i];
    NothingRearranged(s.xs, t.lo, t.Hi());
    LoopBegins(s.xs, t.lo, t.n);
    var u := Loop(t.lo, t.n, s.xs[t.lo + t.n / 2], t.lo, t.lo + t.n - 1);
    OnlyTask(t, u);
    ReplaceKeepsInv(s, original, i, [u], Step(s, i));
  }

  /** A task on the same range covers the same pairs. */
  lemma OnlyTask(t: Task, u: Task)
    requires u.lo == t.lo && u.Hi() == t.Hi()
    ensures forall p, q :: Within(t, p, q) ==> Covered([u], p, q)
  {
    forall p, q | Within(t, p, q) ensures Covered([u], p, q) {
      assert Within([u][0], p, q);
    }
  }

  lemma SplitKeepsInv(s: State, original: seq<int>, i: nat)
    requires Inv(s, original) && i < |s.tasks| && TaskInside(s.xs, s.tasks[i]) && TaskValid(s.xs, s.tasks[i])
    requires s.tasks[i].Loop? && s.tasks[i].l > s.tasks[i].r
    ensures Inv(Step(s, i), original)
  {
    hide Inv, Rearranged, TaskValid;
    var t := s.tasks[i];
    NothingRearranged(s.xs, t.lo, t.Hi());
    LoopEnds(s.xs, t);
    var parts := [Call(t.lo, t.r - t.lo + 1), Call(t.l, t.lo + t.n - t.l)];
    forall p, q | 0 <= p < q < |s.xs| && Within(t, p, q) ensures s.xs[p] <= s.xs[q] || Covered(parts, p, q) {
      if q <= t.r {
        assert Within(parts[0], p, q);
      } else if t.l <= p {
        assert Within(parts[1], p, q);
      }
    }
    CallsValid(s.xs, parts);
    ReplaceKeepsInv(s, original, i, parts, Step(s, i));
  }

  lemma CallsValid(xs: seq<int>, parts: seq<Task>)
    requires forall b :: 0 <= b < |parts| ==> parts[b].Call? && TaskInside(xs, parts[b])
    ensures forall b :: 0 <= b < |parts| ==> TaskValid(xs, parts[b])
  {}

  lemma IterateKeepsInv(s: State, original: seq<int>, i: nat)
    requires Inv(s, original) && i < |s.tasks| && TaskInside(s.xs, s.tasks[i]) && TaskValid(s.xs, s.tasks[i])
    requires s.tasks[i].Loop? && s.tasks[i].l <= s.tasks[i].r
    ensures Inv(Step(s, i), original)
  {
    hide Inv, Rearranged, TaskValid, Swapped;
    var t := s.tasks[i];
    if s.xs[t.l] < t.pivot {
      NothingRearranged(s.xs, t.lo, t.Hi());
      LeftMoves(s.xs, t);
      OnlyTask(t, t.(l := t.l + 1));
      ReplaceKeepsInv(s, original, i, [t.(l := t.l + 1)], Step(s, i));
    } else if s.xs[t.r] > t.pivot {
      NothingRearranged(s.xs, t.lo, t.Hi());
      RightMoves(s.xs, t);
      OnlyTask(t, t.(r := t.r - 1));
      ReplaceKeepsInv(s, original, i, [t.(r := t.r - 1)], Step(s, i));
    } else {
      SwapRearranges(s.xs, t.lo, t.Hi(), t.l, t.r);
      BothMove(s.xs, t);
      OnlyTask(t, t.(l := t.l + 1, r := t.r - 1));
      ReplaceKeepsInv(s, original, i, [t.(l := t.l + 1, r := t.r - 1)], Step(s, i));
    }
  }

  // ---------------------------------------------------------------------
  // Runs
  // ---------------------------------------------------------------------

  function Weight(t: Task): int {
    match t
    case Call(lo, n) => 3 * (n * n) + 1
    case Loop(lo, n, pivot, l, r) => 3 * (n * n) - 6 * n + 10 + (r - l + 1)
  }

  function TotalWeight(tasks: seq<Task>): int {
    if tasks == [] then 0 else TotalWeight(tasks[..|tasks| - 1]) + Weight(tasks[|tasks| - 1])
  }

  lemma {:induction false} WeightAppend(a: seq<Task>, b: seq<Task>)
    ensures TotalWeight(a + b) == TotalWeight(a) + TotalWeight(b)
  {
    if b == [] {
      assert a + b == a;
    } else {
      WeightAppend(a, b[..|b| - 1]);
      assert (a + b)[..|a + b| - 1] == a + b[..|b| - 1];
    }
  }

  lemma SquareMonotone(x: nat, y: nat)
    requires x <= y
    ensures x * x <= y * y
  {
    assert x * x <= x * y <= y * y;
  }

  lemma SquareOfSum(x: int, y: int)
    ensures (x + y) * (x + y) == x * x + 2 * (x * y) + y * y
  {}

  lemma ProductAtLeast(a: nat, c: nat)
    requires a >= 1 && c >= 1
    ensures a * c >= a + c - 1
  {
    assert (a - 1) * (c - 1) == a * c - a - c + 1;
  }

  /** Two ranges that share n elements, neither taking all, have smaller squares than n. */
  lemma SquaresShrink(a: nat, b: nat, n: nat)
    requires a < n && b < n && a + b <= n && n >= 2
    ensures a * a + b * b <= n * n - 2 * n + 2
  {
    if a == 0 {
      SquareMonotone(b, n - 1);
      SquareBefore(n);
    } else {
      SquareMonotone(b, n - a);
      ProductAtLeast(a, n - a);
      SquareSplit(a, n - a, n);
    }
  }

  lemma SquareBefore(n: nat)
    ensures (n - 1) * (n - 1) == n * n - 2 * n + 1
  {}

  lemma SquareSplit(a: nat, c: nat, n: nat)
    requires a + c == n
    ensures n * n == a * a + 2 * (a * c) + c * c
  {
    SquareOfSum(a, c);
  }

  lemma SquareAtLeastDouble(n: nat)
    requires n >= 2
    ensures n * n >= 2 * n
  {}

  lemma WeightPositive(xs: seq<int>, t: Task)
    requires TaskValid(xs, t)
    ensures Weight(t) > 0
  {
    if t.Loop? {
      SquareAtLeastDouble(t.n);
    } else {
      SquareMonotone(0, t.n);
    }
  }

  /** Every step makes the pending work smaller, so every run comes to an end. */
  lemma StepShrinks(s: State, original: seq<int>, i: nat)
    requires Inv(s, original) && i < |s.tasks| && TaskInside(s.xs, s.tasks[i])
    ensures TotalWeight(Step(s, i).tasks) < TotalWeight(s.tasks)
  {
    hide Step, TotalWeight, Weight, TaskInside;
    var t, before, after := s.tasks[i], s.tasks[..i], s.tasks[i + 1..];
    assert TaskValid(s.xs, t);
    assert s.tasks == before + [t] + after;
    WeightAppend(before + [t], after);
    WeightAppend(before, [t]);
    SingleWeight(t);
    var parts := StepReplaces(s, i);
    WeightAppend(before + parts, after);
    WeightAppend(before, parts);
    FreshWeighsLess(s, t, i, parts);
  }

  /** A step puts some tasks in the place of one. */
  lemma StepReplaces(s: State, i: nat) returns (parts: seq<Task>)
    requires i < |s.tasks| && TaskInside(s.xs, s.tasks[i])
    ensures Step(s, i).tasks == s.tasks[..i] + parts + s.tasks[i + 1..]
  {
    var after := s.tasks[i + 1..];
    var next := Step(s, i).tasks;
    parts := if s.tasks[i].Call? && s.tasks[i].n < 2 then [] else next[i..|next| - |after|];
    assert next == s.tasks[..i] + parts + after;
  }

  lemma SingleWeight(t: Task)
    ensures TotalWeight([t]) == Weight(t)
  {
    assert [t][..0] == [];
  }

  lemma FreshWeighsLess(s: State, t: Task, i: nat, parts: seq<Task>)
    requires i < |s.tasks| && t == s.tasks[i] && TaskValid(s.xs, t)
    requires Step(s, i).tasks == s.tasks[..i] + parts + s.tasks[i + 1..]
    ensures TotalWeight(parts) < Weight(t)
  {
    var next := Step(s, i).tasks;
    assert parts == next[i..i + |parts|];
    WeightPositive(s.xs, t);
    if t.Call? && t.n >= 2 {
      SingleWeight(parts[0]);
      assert parts == [parts[0]];
    } else if t.Loop? && t.l > t.r {
      LoopEnds(s.xs, t);
      var a, b := parts[0], parts[1];
      assert parts == [a] + [b];
      WeightAppend([a], [b]);
      SingleWeight(a);
      SingleWeight(b);
      SquaresShrink(a.n, b.n, t.n);
    } else if t.Loop? {
      SingleWeight(parts[0]);
      assert parts == [parts[0]];
    }
  }

  /** One iteration of some pending task. */
  ghost predicate Steps(s: State, t: State) {
    exists i :: 0 <= i < |s.tasks| && TaskInside(s.xs, s.tasks[i]) && t == Step(s, i)
  }

  ghost predicate IsRun(states: seq<State>) {
    states != [] && forall k :: 0 <= k < |states| - 1 ==> Steps(states[k], states[k + 1])
  }

  lemma {:induction false} RunKeepsInv(states: seq<State>, original: seq<int>)
    requires IsRun(states) && Inv(states[0], original)
    ensures Inv(states[|states| - 1], original)
    ensures |states| - 1 + TotalWeight(states[|states| - 1].tasks) <= TotalWeight(states[0].tasks)
  {
    hide Inv, Step, TaskInside;
    if |states| > 1 {
      var k := |states| - 2;
      RunKeepsInv(states[..|states| - 1], original);
      var s := states[k];
      assert Steps(states[k], states[k + 1]);
      var i :| 0 <= i < |s.tasks| && TaskInside(s.xs, s.tasks[i]) && states[k + 1] == Step(s, i);
      StepKeepsInv(s, original, i);
      StepShrinks(s, original, i);
    }
  }

  /**
    However the steps of the pending tasks are interleaved, a run from the whole input
    takes a bounded number of steps, can go on as long as a task is pending, and when
    none is left holds the input in order.
   */
  lemma AnyRunSorts(xs: seq<int>, states: seq<State>)
    requires IsRun(states) && states[0] == State(xs, [Call(0, |xs|)])
    ensures var end := states[|states| - 1];
      && Inv(end, xs)
      && |states| - 1 <= 3 * (|xs| * |xs|) + 1
      && (end.tasks != [] ==> exists next :: Steps(end, next))
      && (end.tasks == [] ==> SortedRange(end.xs, 0, |end.xs|) && multiset(end.xs) == multiset(xs))
  {
    var end := states[|states| - 1];
    StartsValid(xs);
    RunKeepsInv(states, xs);
    SingleWeight(Call(0, |xs|));
    TotalNonNegative(end.xs, end.tasks);
    if end.tasks != [] {
      assert TaskValid(end.xs, end.tasks[0]);
      assert Steps(end, Step(end, 0));
    }
  }

  lemma StartsValid(xs: seq<int>)
    ensures Inv(State(xs, [Call(0, |xs|)]), xs)
  {
    var s := State(xs, [Call(0, |xs|)]);
    forall i, j | 0 <= i < j < |xs| ensures Covered(s.tasks, i, j) {
      assert Within(s.tasks[0], i, j);
    }
    assert TaskValid(xs, s.tasks[0]);
  }

  lemma {:induction false} TotalNonNegative(xs: seq<int>, tasks: seq<Task>)
    requires forall a :: 0 <= a < |tasks| ==> TaskValid(xs, tasks[a])
    ensures TotalWeight(tasks) >= |tasks|
  {
    if tasks != [] {
      TotalNonNegative(xs, tasks[..|tasks| - 1]);
      WeightPositive(xs, tasks[|tasks| - 1]);
    }
  }
}
