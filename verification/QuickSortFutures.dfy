/**
  qsort_f and wait_for_futures of multithread/quick_sort/quick_sort.py: the tasks of QuickSort
  belong to futures, and the main thread calls one future after the other while the worker
  threads go on in any order.
 */
module QuickSortFutures {

  import opened Sorting
  import opened QuickSort

  /**
    Every pending task belongs to the future that makes the call; a future returns a list of
    the futures that were made on the way. Futures are numbered as they are made.
   */
  datatype Pool = Pool(s: State, owner: seq<nat>, returned: seq<seq<nat>>)

  predicate PoolValid(p: Pool) {
    && |p.owner| == |p.s.tasks|
    && (forall a :: 0 <= a < |p.owner| ==> p.owner[a] < |p.returned|)
  }

  /** The futures that a call makes at the end of its loop. */
  function Made(next: nat, left: bool, right: bool): seq<nat> {
    if left && right then [next, next + 1] else if left || right then [next] else []
  }

  /** Future `o` will return those that it has made, too; these have made none so far. */
  function Extended(returned: seq<seq<nat>>, o: nat, made: seq<nat>): (r: seq<seq<nat>>)
    requires o < |returned|
    ensures |r| == |returned| + |made|
    ensures forall h :: 0 <= h < |r| ==>
      r[h] == if h == o then returned[o] + made else if h < |returned| then returned[h] else []
  {
    returned[o := returned[o] + made] + seq(|made|, _ => [])
  }

  /**
    One iteration of task `i`. At the end of its loop each of the two calls is handed to a new
    future, or made by the same one.
   */
  function Turn(p: Pool, i: nat, left: bool, right: bool): Pool
    requires PoolValid(p) && i < |p.s.tasks| && TaskInside(p.s.xs, p.s.tasks[i])
  {
    var t, o, next := p.s.tasks[i], p.owner[i], |p.returned|;
    var before, after := p.owner[..i], p.owner[i + 1..];
    var s := Step(p.s, i);
    match t
    case Call(lo, n) => if n < 2 then Pool(s, before + after, p.returned) else p.(s := s)
    case Loop(lo, n, pivot, l, r) =>
      if l <= r then p.(s := s)
      else
        var made := Made(next, left, right);
        var first := if left then next else o;
        var second := if right then made[|made| - 1] else o;
        Pool(s, before + [first, second] + after, Extended(p.returned, o, made))
  }

  // ---------------------------------------------------------------------
  // Who lists whom
  // ---------------------------------------------------------------------

  /** A future returns those that it has made, in order. */
  ghost predicate Returns(returned: seq<seq<nat>>, parent: seq<nat>) {
    && |parent| == |returned|
    && (forall g :: 0 < g < |parent| ==> parent[g] < g)
    && (forall h :: 0 <= h < |returned| ==> Increasing(returned[h]))
    && (forall h, g: nat :: 0 <= h < |returned| ==> (g in returned[h] <==> 0 < g < |parent| && parent[g] == h))
  }

  /**
    The list holds, once each, the futures that are not over but whose maker is; `over` are
    those that were called and have returned.
   */
  ghost predicate Lists(fs: seq<nat>, parent: seq<nat>, over: set<nat>) {
    && (forall g :: g in over ==> g < |parent| && (g == 0 || parent[g] in over))
    && Distinct(fs)
    && (forall g: nat :: g in fs <==> g < |parent| && g !in over && (g == 0 || parent[g] in over))
  }

  /** Every pending task belongs to a future that is not over. */
  ghost predicate Books(p: Pool, fs: seq<nat>, parent: seq<nat>, over: set<nat>) {
    && PoolValid(p) && Returns(p.returned, parent) && Lists(fs, parent, over)
    && (forall a :: 0 <= a < |p.owner| ==> p.owner[a] !in over)
  }

  /** The makers of the futures, when `o` has made some more. */
  ghost function Parents(parent: seq<nat>, o: nat, made: seq<nat>): (r: seq<nat>)
    ensures |r| == |parent| + |made|
    ensures forall g :: 0 <= g < |r| ==> r[g] == if g < |parent| then parent[g] else o
  {
    parent + seq(|made|, _ => o)
  }

  lemma MadeIncreasing(s: seq<nat>, next: nat, left: bool, right: bool)
    requires Increasing(s) && forall g :: g in s ==> g < next
    ensures Increasing(s + Made(next, left, right))
  {
    assert forall i :: 0 <= i < |s| ==> s[i] in s;
  }

  lemma ReturnsMore(returned: seq<seq<nat>>, parent: seq<nat>, o: nat, left: bool, right: bool)
    requires Returns(returned, parent) && o < |returned|
    ensures var made := Made(|returned|, left, right);
      Returns(Extended(returned, o, made), Parents(parent, o, made))
  {
    hide Increasing;
    var n, made := |returned|, Made(|returned|, left, right);
    var r, q := Extended(returned, o, made), Parents(parent, o, made);
    forall g | g in returned[o] ensures g < n {
      ReturnsAt(returned, parent, o, g);
    }
    MadeIncreasing(returned[o], n, left, right);
    EmptyIncreasing();
    forall h, g: nat | 0 <= h < |r| ensures g in r[h] <==> 0 < g < |q| && q[g] == h {
      assert g in made <==> n <= g < |q|;
      if h < n {
        ReturnsAt(returned, parent, h, g);
      }
    }
  }

  lemma ReturnsAt(returned: seq<seq<nat>>, parent: seq<nat>, h: nat, g: nat)
    requires Returns(returned, parent) && h < |returned|
    ensures g in returned[h] <==> 0 < g < |parent| && parent[g] == h
  {}

  lemma EmptyIncreasing()
    ensures Increasing([])
  {}

  lemma ListsMore(fs: seq<nat>, parent: seq<nat>, over: set<nat>, o: nat, made: seq<nat>)
    requires Lists(fs, parent, over) && o !in over && |parent| > 0
    ensures Lists(fs, Parents(parent, o, made), over)
  {}

  lemma FuturesAre(returned: seq<seq<nat>>, fs: seq<nat>, parent: seq<nat>, over: set<nat>)
    requires Returns(returned, parent) && Lists(fs, parent, over)
    ensures |parent| == |returned| && forall g :: g in over ==> g < |parent|
  {}

  lemma StepLength(s: State, i: nat)
    requires i < |s.tasks| && TaskInside(s.xs, s.tasks[i])
    ensures var t := s.tasks[i];
      |Step(s, i).tasks| ==
        |s.tasks| + if t.Call? && t.n < 2 then -1 else if t.Loop? && t.l > t.r then 1 else 0
  {}

  /** A turn keeps the books; the futures that it makes are new. */
  lemma TurnKeepsBooks(p: Pool, fs: seq<nat>, parent: seq<nat>, over: set<nat>, i: nat, left: bool, right: bool)
    returns (parent': seq<nat>)
    requires Books(p, fs, parent, over) && i < |p.s.tasks| && TaskInside(p.s.xs, p.s.tasks[i])
    ensures var p' := Turn(p, i, left, right);
      && Books(p', fs, parent', over) && p'.s == Step(p.s, i)
      && |p.returned| <= |p'.returned| <= |p.returned| + 2
  {
    hide Returns, Lists, Increasing, Step;
    var t, o, made := p.s.tasks[i], p.owner[i], Made(|p.returned|, left, right);
    StepLength(p.s, i);
    FuturesAre(p.returned, fs, parent, over);
    ReturnsMore(p.returned, parent, o, left, right);
    ListsMore(fs, parent, over, o, made);
    parent' := if t.Loop? && t.l > t.r then Parents(parent, o, made) else parent;
  }

  lemma JoinedDiffer(s: seq<nat>, t: seq<nat>)
    requires Distinct(s) && Increasing(t) && forall g :: g in s ==> g !in t
    ensures Distinct(s + t)
  {
    assert forall i :: 0 <= i < |s| ==> s[i] in s;
    assert forall i :: 0 <= i < |t| ==> t[i] in t;
  }

  /** A future that has returned leaves its list to the one who called it. */
  lemma CallKeepsLists(returned: seq<seq<nat>>, fs: seq<nat>, f: nat, parent: seq<nat>, over: set<nat>)
    requires Returns(returned, parent) && Lists(fs + [f], parent, over)
    ensures f < |returned| && f !in over && Lists(fs + returned[f], parent, over + {f})
  {
    var gs := fs + [f];
    assert gs[|fs|] == f && f in gs;
    assert forall i :: 0 <= i < |fs| ==> gs[i] == fs[i] && gs[i] in gs;
    forall g: nat
      ensures (g in fs <==> g in gs && g != f) && (g in returned[f] <==> 0 < g < |parent| && parent[g] == f) {
      ReturnsAt(returned, parent, f, g);
    }
    JoinedDiffer(fs, returned[f]);
    var gs', over' := fs + returned[f], over + {f};
    forall g: nat ensures g in gs' <==> g < |parent| && g !in over' && (g == 0 || parent[g] in over') {
      assert g in gs' <==> g in fs || g in returned[f];
      assert g in gs <==> g < |parent| && g !in over && (g == 0 || parent[g] in over);
    }
  }

  lemma {:induction false} AllAreOver(returned: seq<seq<nat>>, parent: seq<nat>, over: set<nat>, g: nat)
    requires Returns(returned, parent) && Lists([], parent, over) && g < |parent|
    ensures g in over
  {
    if g > 0 {
      AllAreOver(returned, parent, over, parent[g]);
    }
    assert g !in [];
  }

  lemma FewerOver(over: set<nat>, n: nat)
    requires forall g :: g in over ==> g < n
    ensures |over| <= n
  {
    SubsetSize(over, RangeSet(n));
  }

  lemma SubsetSize(a: set<int>, b: set<int>)
    requires a <= b
    ensures |a| <= |b|
  {
    assert b == a + (b - a);
  }

  lemma FirstOwner(p: Pool)
    requires PoolValid(p) && p.owner != []
    ensures p.owner[0] < |p.returned|
  {}

  /** With an empty list every future is over, so nothing is pending and the sequence is in order. */
  lemma NothingListed(p: Pool, parent: seq<nat>, over: set<nat>, original: seq<int>)
    requires Books(p, [], parent, over) && Inv(p.s, original)
    ensures p.s.tasks == [] && |over| == |p.returned|
    ensures SortedRange(p.s.xs, 0, |p.s.xs|) && multiset(p.s.xs) == multiset(original)
  {
    forall g: nat | g in RangeSet(|parent|) ensures g in over {
      AllAreOver(p.returned, parent, over, g);
    }
    assert over == RangeSet(|parent|);
    if p.owner != [] {
      FirstOwner(p);
    }
  }

  // ---------------------------------------------------------------------
  // Waiting
  // ---------------------------------------------------------------------

  /** Bounds the turns still to come and the futures still to be called. */
  ghost function Ahead(p: Pool): int {
    3 * TotalWeight(p.s.tasks) + |p.returned|
  }

  lemma TurnKeeps(p: Pool, fs: seq<nat>, parent: seq<nat>, over: set<nat>, original: seq<int>, i: nat, left: bool,
      right: bool)
    returns (parent': seq<nat>)
    requires Books(p, fs, parent, over) && Inv(p.s, original) && i < |p.s.tasks|
    ensures TaskInside(p.s.xs, p.s.tasks[i])
    ensures var p' := Turn(p, i, left, right);
      && Books(p', fs, parent', over) && Inv(p'.s, original)
      && Ahead(p') < Ahead(p) && 0 <= TotalWeight(p'.s.tasks) < TotalWeight(p.s.tasks)
  {
    hide Books, Inv, Step, TotalWeight, Turn;
    StepKeepsInv(p.s, original, i);
    StepShrinks(p.s, original, i);
    parent' := TurnKeepsBooks(p, fs, parent, over, i, left, right);
    WeightBound(Step(p.s, i), original);
  }

  lemma WeightBound(s: State, original: seq<int>)
    requires Inv(s, original)
    ensures TotalWeight(s.tasks) >= 0
  {
    TotalNonNegative(s.xs, s.tasks);
  }

  /**
    The call of a future: it returns when no task of the future is pending. Meanwhile, and for
    as long as they like, worker threads take turns with any pending tasks.
   */
  method CallFuture(p0: Pool, f: nat, ghost fs: seq<nat>, ghost parent0: seq<nat>, ghost over: set<nat>,
      ghost original: seq<int>)
    returns (p: Pool, ghost parent: seq<nat>)
    requires Books(p0, fs + [f], parent0, over) && Inv(p0.s, original)
    ensures Books(p, fs + [f], parent, over) && Inv(p.s, original)
    ensures f !in p.owner && Ahead(p) <= Ahead(p0)
  {
    hide Books, Inv, TotalWeight, Turn;
    p, parent := p0, parent0;
    WeightBound(p.s, original);
    var goOn: bool := *;
    while f in p.owner || (goOn && p.s.tasks != [])
      invariant Books(p, fs + [f], parent, over) && Inv(p.s, original)
      invariant Ahead(p) <= Ahead(p0) && TotalWeight(p.s.tasks) >= 0
      decreases TotalWeight(p.s.tasks)
    {
      OwnersAre(p, fs + [f], parent, over);
      var i: nat :| i < |p.s.tasks|;
      var left: bool, right: bool := *, *;
      parent := TurnKeeps(p, fs + [f], parent, over, original, i, left, right);
      p := Turn(p, i, left, right);
      goOn := *;
    }
  }

  lemma OwnersAre(p: Pool, fs: seq<nat>, parent: seq<nat>, over: set<nat>)
    requires Books(p, fs, parent, over)
    ensures PoolValid(p)
  {}

  /** The future that was called is over now. */
  lemma CallKeepsBooks(p: Pool, fs: seq<nat>, f: nat, parent: seq<nat>, over: set<nat>)
    requires Books(p, fs + [f], parent, over) && f !in p.owner
    ensures f < |p.returned| && f !in over && Books(p, fs + p.returned[f], parent, over + {f})
    ensures |over| < |p.returned|
  {
    CallKeepsLists(p.returned, fs, f, parent, over);
    FewerOver(over + {f}, |parent|);
  }

  /**
    wait_for_futures: whatever the threads do, it ends, has called every future once, and the
    sequence is sorted then.
   */
  method WaitForFutures(p0: Pool, futures: seq<nat>, ghost parent0: seq<nat>, ghost over0: set<nat>,
      ghost original: seq<int>)
    returns (p: Pool, c: nat)
    requires Books(p0, futures, parent0, over0) && Inv(p0.s, original)
    ensures p.s.tasks == [] && SortedRange(p.s.xs, 0, |p.s.xs|) && multiset(p.s.xs) == multiset(original)
    ensures c + |over0| == |p.returned|
  {
    hide Books, Inv, TotalWeight, SortedRange;
    p, c := p0, 0;
    var fs := futures;
    ghost var parent := parent0;
    ghost var over: set<nat> := over0;
    while fs != []
      invariant Books(p, fs, parent, over) && Inv(p.s, original)
      invariant c + |over0| == |over|
      decreases Ahead(p) - |over|
    {
      var f := fs[|fs| - 1];
      assert fs == fs[..|fs| - 1] + [f];
      fs := fs[..|fs| - 1];
      p, parent := CallFuture(p, f, fs, parent, over, original);
      CallKeepsBooks(p, fs, f, parent, over);
      WeightBound(p.s, original);
      fs := fs + p.returned[f];
      over := over + {f};
      c := c + 1;
    }
    NothingListed(p, parent, over, original);
  }

  lemma StartKeepsBooks(xs: seq<int>)
    ensures Books(Pool(State(xs, [Call(0, |xs|)]), [0], [[]]), [] + [0], [0], {})
  {}

  /** The sort as `run` starts it: a future for the whole sequence, then those that it returns. */
  method SortInParallel(xs: seq<int>) returns (ys: seq<int>)
    ensures SortedRange(ys, 0, |ys|) && multiset(ys) == multiset(xs)
  {
    hide Books, Inv, SortedRange;
    StartsValid(xs);
    StartKeepsBooks(xs);
    var p := Pool(State(xs, [Call(0, |xs|)]), [0], [[]]);
    ghost var parent;
    ghost var over: set<nat> := {};
    p, parent := CallFuture(p, 0, [], [0], over, xs);
    CallKeepsBooks(p, [], 0, parent, over);
    assert [] + p.returned[0] == p.returned[0];
    var c;
    p, c := WaitForFutures(p, p.returned[0], parent, over + {0}, xs);
    ys := p.s.xs;
  }
}
