/**
  Strongly connected components with an explicit stack, after own/bm_mdp.py. Each
  node is pushed twice: once to be discovered, and once, below all its children, to
  be finished.
 */
module Tarjan {

  type Graph = int -> seq<int>

  // ---------------------------------------------------------------------
  // Reachability
  // ---------------------------------------------------------------------

  ghost predicate IsPath(g: Graph, p: seq<int>) {
    p != [] && forall i :: 0 <= i < |p| - 1 ==> p[i + 1] in g(p[i])
  }

  ghost predicate Reaches(g: Graph, a: int, b: int) {
    exists p :: IsPath(g, p) && p[0] == a && p[|p| - 1] == b
  }

  ghost predicate Closed(g: Graph, s: set<int>) {
    forall a, b :: a in s && b in g(a) ==> b in s
  }

  lemma ReachesSelf(g: Graph, a: int)
    ensures Reaches(g, a, a)
  {
    assert IsPath(g, [a]);
  }

  lemma ReachesEdge(g: Graph, a: int, b: int)
    requires b in g(a)
    ensures Reaches(g, a, b)
  {
    assert IsPath(g, [a, b]);
  }

  lemma ReachesTransitive(g: Graph, a: int, b: int, c: int)
    requires Reaches(g, a, b) && Reaches(g, b, c)
    ensures Reaches(g, a, c)
  {
    var p :| IsPath(g, p) && p[0] == a && p[|p| - 1] == b;
    var q :| IsPath(g, q) && q[0] == b && q[|q| - 1] == c;
    var r := p + q[1..];
    forall i | 0 <= i < |r| - 1 ensures r[i + 1] in g(r[i]) {
      if i >= |p| - 1 {
        assert r[i] == q[i - (|p| - 1)];
      }
    }
    assert IsPath(g, r);
  }

  lemma {:induction false} PathStaysInClosed(g: Graph, s: set<int>, p: seq<int>)
    requires Closed(g, s) && IsPath(g, p) && p[0] in s
    ensures p[|p| - 1] in s
  {
    if |p| > 1 {
      var q := p[..|p| - 1];
      PathStaysInClosed(g, s, q);
      var i := |p| - 2;
      assert q[|q| - 1] == p[i] && p[i + 1] == p[|p| - 1];
      assert p[i + 1] in g(p[i]);
    }
  }

  lemma ReachesStaysInClosed(g: Graph, s: set<int>, a: int, b: int)
    requires Closed(g, s) && a in s && Reaches(g, a, b)
    ensures b in s
  {
    var p :| IsPath(g, p) && p[0] == a && p[|p| - 1] == b;
    PathStaysInClosed(g, s, p);
  }

  /** `c` is a maximal set of nodes that all reach each other. */
  ghost predicate IsComponent(g: Graph, c: seq<int>) {
    && c != []
    && forall a, b :: a in c ==> (b in c <==> Reaches(g, a, b) && Reaches(g, b, a))
  }

  // ---------------------------------------------------------------------
  // The state of the search
  // ---------------------------------------------------------------------

  datatype Frame = Discover(node: int) | Finish(node: int)

  /**
    `parent[k]` is the position in `subtree` of the node from which subtree[k] was
    discovered; it is not part of the program's state.
   */
  datatype State = State(
    stack: seq<Frame>,
    index: map<int, nat>,
    lowlink: map<int, nat>,
    removed: set<int>,
    subtree: seq<int>,
    parent: seq<int>,
    sccs: seq<seq<int>>)
  {
    ghost predicate Gray(n: int) {
      Finish(n) in stack
    }
  }

  ghost predicate Emitted(sccs: seq<seq<int>>, n: int) {
    exists i :: 0 <= i < |sccs| && n in sccs[i]
  }

  /** Bookkeeping of indices: `subtree` holds the indexed nodes not yet removed, in index order. */
  ghost predicate Indexed(s: State) {
    && s.lowlink.Keys == s.index.Keys
    && s.removed <= s.index.Keys
    && (forall a, b :: a in s.index && b in s.index && s.index[a] == s.index[b] ==> a == b)
    && (forall a :: a in s.index ==> s.index[a] < |s.index|)
    && (forall j :: 0 <= j < |s.subtree| ==> s.subtree[j] in s.index && s.subtree[j] !in s.removed)
    && (forall a :: a in s.index && a !in s.removed ==> a in s.subtree)
    && (forall i, j :: 0 <= i < j < |s.subtree| ==> s.index[s.subtree[i]] < s.index[s.subtree[j]])
  }

  /** `c` waits on the stack above position `p`. */
  ghost predicate Above(stack: seq<Frame>, p: int, c: int) {
    exists q :: 0 <= q < |stack| && p < q && stack[q] == Discover(c)
  }

  /** `n` was pushed as a child of the topmost open node of `stack`, or as a root if there is none. */
  ghost predicate Pushed(g: Graph, roots: seq<int>, stack: seq<Frame>, n: int) {
    if stack == [] then n in roots
    else if stack[|stack| - 1].Finish? then n in g(stack[|stack| - 1].node)
    else Pushed(g, roots, stack[..|stack| - 1], n)
  }

  /** The nodes being explored lie on the stack in index order, each below the rest of its children. */
  ghost predicate Stacked(g: Graph, roots: seq<int>, s: State)
    requires Indexed(s)
  {
    && (forall p :: 0 <= p < |s.stack| && s.stack[p].Finish? ==> s.stack[p].node in s.subtree)
    && (forall p, q :: 0 <= p < q < |s.stack| && s.stack[p].Finish? && s.stack[q].Finish? ==>
          s.index[s.stack[p].node] < s.index[s.stack[q].node])
    && (forall p, c :: 0 <= p < |s.stack| && s.stack[p].Finish? && c in g(s.stack[p].node) ==>
          c in s.index || Above(s.stack, p, c))
    && (forall q :: 0 <= q < |s.stack| && s.stack[q].Discover? ==>
          Pushed(g, roots, s.stack[..q], s.stack[q].node))
    && (forall r :: r in roots ==> r in s.index || Discover(r) in s.stack)
  }

  /** The discovery tree on `subtree`: below an open node lie only its descendants. */
  ghost predicate Treed(g: Graph, s: State) {
    && |s.parent| == |s.subtree|
    && (forall k :: 0 <= k < |s.subtree| ==> -1 <= s.parent[k] < k)
    && (forall k :: 0 <= k < |s.subtree| && s.parent[k] >= 0 ==> s.subtree[k] in g(s.subtree[s.parent[k]]))
    && (forall i, k :: 0 <= i < k < |s.subtree| && s.Gray(s.subtree[i]) ==> i <= s.parent[k])
  }

  /** A finished node of `subtree` leads back to a node with its lowlink as index, further down. */
  ghost predicate LeadsBack(g: Graph, s: State, x: int)
    requires Indexed(s)
  {
    && x in s.subtree
    && s.lowlink[x] < s.index[x]
    && exists y :: y in s.subtree && s.index[y] == s.lowlink[x] && Reaches(g, x, y)
  }

  /** Its lowlink is a lower bound for what its edges lead to. */
  ghost predicate LowBound(g: Graph, s: State, x: int)
    requires Indexed(s) && x in s.index
  {
    forall c :: c in g(x) ==>
      && c in s.index
      && (c !in s.removed && s.index[c] <= s.index[x] ==> s.lowlink[x] <= s.index[c])
      && (c !in s.removed && s.index[c] > s.index[x] ==> !s.Gray(c) && s.lowlink[x] <= s.lowlink[c])
  }

  ghost predicate Lowlinked(g: Graph, s: State)
    requires Indexed(s)
  {
    && (forall x :: x in s.subtree && s.Gray(x) ==> s.lowlink[x] == s.index[x])
    && (forall x :: x in s.subtree && !s.Gray(x) ==> LeadsBack(g, s, x) && LowBound(g, s, x))
  }

  /** What has been emitted: the components of `removed`, successors first. */
  ghost predicate Emissions(g: Graph, s: State) {
    && (forall n :: n in s.removed <==> Emitted(s.sccs, n))
    && (forall i :: 0 <= i < |s.sccs| ==> IsComponent(g, s.sccs[i]))
    && Each(s.sccs)
    && Ordered(g, s.sccs)
    && Closed(g, s.removed)
  }

  /** No node is listed twice, in one component or in two. */
  ghost predicate Each(sccs: seq<seq<int>>) {
    && (forall i, a, b :: 0 <= i < |sccs| && 0 <= a < b < |sccs[i]| ==> sccs[i][a] != sccs[i][b])
    && (forall i, j, n :: 0 <= i < j < |sccs| && n in sccs[i] ==> n !in sccs[j])
  }

  /** Every edge leads into the same component or one emitted before. */
  ghost predicate Ordered(g: Graph, sccs: seq<seq<int>>) {
    forall i, a, b :: 0 <= i < |sccs| && a in sccs[i] && b in g(a) ==> Emitted(sccs[..i + 1], b)
  }

  ghost predicate FromRoots(g: Graph, roots: seq<int>, n: int) {
    exists r :: r in roots && Reaches(g, r, n)
  }

  ghost predicate Inv(g: Graph, roots: seq<int>, s: State) {
    && Indexed(s)
    && Stacked(g, roots, s)
    && Treed(g, s)
    && Lowlinked(g, s)
    && Emissions(g, s)
    && (forall n :: n in s.index ==> FromRoots(g, roots, n))
  }

  // ---------------------------------------------------------------------
  // One step at a time
  // ---------------------------------------------------------------------

  lemma Start(g: Graph, roots: seq<int>, s: State)
    requires |s.stack| == |roots| && forall i :: 0 <= i < |roots| ==> s.stack[i] == Discover(roots[i])
    requires s == State(s.stack, map[], map[], {}, [], [], [])
    ensures Inv(g, roots, s)
  {
    assert Indexed(s);
    StartStacked(g, roots, s);
    assert Emissions(g, s);
  }

  lemma {:induction false} RootPushed(g: Graph, roots: seq<int>, stack: seq<Frame>, n: int)
    requires n in roots && forall i :: 0 <= i < |stack| ==> stack[i].Discover?
    ensures Pushed(g, roots, stack, n)
  {
    if stack != [] {
      RootPushed(g, roots, stack[..|stack| - 1], n);
    }
  }

  lemma StartStacked(g: Graph, roots: seq<int>, s: State)
    requires |s.stack| == |roots| && forall i :: 0 <= i < |roots| ==> s.stack[i] == Discover(roots[i])
    requires Indexed(s)
    ensures Stacked(g, roots, s)
  {
    forall r | r in roots ensures Discover(r) in s.stack {
      var i :| 0 <= i < |roots| && roots[i] == r;
      assert s.stack[i] == Discover(r);
    }
    forall q | 0 <= q < |s.stack| && s.stack[q].Discover? ensures Pushed(g, roots, s.stack[..q], s.stack[q].node) {
      RootPushed(g, roots, s.stack[..q], s.stack[q].node);
    }
  }

  /** The first node of `subtree` is still being explored. */
  lemma FirstIsGray(g: Graph, s: State)
    requires Indexed(s) && Lowlinked(g, s) && s.subtree != []
    ensures s.Gray(s.subtree[0])
  {
    var x := s.subtree[0];
    assert x in s.subtree;
    forall y | y in s.subtree ensures s.index[y] >= s.index[x] {
      var j :| 0 <= j < |s.subtree| && s.subtree[j] == y;
    }
  }

  /** Taking off a frame whose node is indexed loses nothing that still has to be discovered. */
  lemma PopKeepsPending(g: Graph, index: map<int, nat>, st: seq<Frame>, st': seq<Frame>, p: int, c: int)
    requires st != [] && st' == st[..|st| - 1]
    requires st[|st| - 1].Discover? ==> st[|st| - 1].node in index
    requires c in index || Above(st, p, c)
    ensures c in index || Above(st', p, c)
  {
    if c !in index {
      var q :| 0 <= q < |st| && p < q && st[q] == Discover(c);
      assert st'[q] == Discover(c);
    }
  }

  /** Taking a frame off the stack keeps the rest of it in order. */
  lemma PopKeepsStacked(g: Graph, roots: seq<int>, s: State, s': State)
    requires Indexed(s) && Stacked(g, roots, s) && Indexed(s') && s.stack != []
    requires s'.stack == s.stack[..|s.stack| - 1] && s'.index == s.index
    requires s.stack[|s.stack| - 1].Discover? ==> s.stack[|s.stack| - 1].node in s.index
    requires forall p :: 0 <= p < |s'.stack| && s'.stack[p].Finish? ==> s'.stack[p].node in s'.subtree
    ensures Stacked(g, roots, s')
  {
    hide Above, Pushed;
    var last := |s.stack| - 1;
    forall p, c | 0 <= p < last && s'.stack[p].Finish? && c in g(s'.stack[p].node)
      ensures c in s'.index || Above(s'.stack, p, c)
    {
      assert s.stack[p] == s'.stack[p];
      PopKeepsPending(g, s.index, s.stack, s'.stack, p, c);
    }
    forall q | 0 <= q < last && s'.stack[q].Discover? ensures Pushed(g, roots, s'.stack[..q], s'.stack[q].node) {
      assert s'.stack[..q] == s.stack[..q] && s.stack[q] == s'.stack[q];
    }
    forall r | r in roots && r !in s.index ensures Discover(r) in s'.stack {
      var q :| 0 <= q < |s.stack| && s.stack[q] == Discover(r);
      assert s'.stack[q] == Discover(r);
    }
  }

  /** Nothing but the stack matters to the order of the nodes on it, and only through the open ones. */
  lemma SameGrayKeeps(g: Graph, s: State, s': State)
    requires Indexed(s) && Treed(g, s) && Lowlinked(g, s)
    requires s' == s.(stack := s'.stack) && forall n :: s.Gray(n) <==> s'.Gray(n)
    ensures Treed(g, s') && Lowlinked(g, s')
  {
    forall x | x in s'.subtree && !s'.Gray(x) ensures LeadsBack(g, s', x) && LowBound(g, s', x) {
      assert LeadsBack(g, s, x) && LowBound(g, s, x);
    }
  }

  lemma SkipKeepsGray(s: State, s': State)
    requires s.stack != [] && s.stack[|s.stack| - 1].Discover? && s'.stack == s.stack[..|s.stack| - 1]
    ensures forall n :: s.Gray(n) <==> s'.Gray(n)
  {
    assert s.stack == s'.stack + [s.stack[|s.stack| - 1]];
  }

  lemma SkipKeepsIndexed(g: Graph, roots: seq<int>, s: State, s': State)
    requires Indexed(s) && Stacked(g, roots, s)
    requires s.stack != [] && s' == s.(stack := s.stack[..|s.stack| - 1])
    ensures Indexed(s')
    ensures forall p :: 0 <= p < |s'.stack| && s'.stack[p].Finish? ==> s'.stack[p].node in s'.subtree
  {
    forall p | 0 <= p < |s'.stack| && s'.stack[p].Finish? ensures s'.stack[p].node in s'.subtree {
      assert s.stack[p] == s'.stack[p];
    }
  }

  lemma SameEmissions(g: Graph, s: State, s': State)
    requires Emissions(g, s) && s'.removed == s.removed && s'.sccs == s.sccs
    ensures Emissions(g, s')
  {}

  /** A child that was discovered in the meantime is dropped from the stack. */
  lemma Skip(g: Graph, roots: seq<int>, s: State, s': State)
    requires Inv(g, roots, s) && s.stack != []
    requires s.stack[|s.stack| - 1].Discover? && s.stack[|s.stack| - 1].node in s.index
    requires s' == s.(stack := s.stack[..|s.stack| - 1])
    ensures Inv(g, roots, s')
  {
    hide Stacked, Indexed, Treed, Lowlinked, Emissions, FromRoots;
    SkipKeepsGray(s, s');
    SkipKeepsIndexed(g, roots, s, s');
    PopKeepsStacked(g, roots, s, s');
    SameGrayKeeps(g, s, s');
    SameEmissions(g, s, s');
  }

  // ---------------------------------------------------------------------
  // Discovering a node
  // ---------------------------------------------------------------------

  /** `n` has just been popped and is opened; `pushes` are its children that are not removed. */
  ghost predicate Discovers(g: Graph, s: State, n: int, pushes: seq<Frame>, parent: int, s': State) {
    && s.stack != [] && s.stack[|s.stack| - 1] == Discover(n) && n !in s.index
    && (forall i :: 0 <= i < |pushes| ==> pushes[i].Discover? && pushes[i].node in g(n))
    && (forall c :: c in g(n) && c !in s.removed ==> Discover(c) in pushes)
    && s' == State(
      s.stack[..|s.stack| - 1] + [Finish(n)] + pushes, s.index[n := |s.index|], s.lowlink[n := |s.index|],
      s.removed, s.subtree + [n], s.parent + [parent], s.sccs)
  }

  /** The topmost open node, at which a pushed node was found. */
  lemma {:induction false} TopGray(g: Graph, roots: seq<int>, stack: seq<Frame>, n: int) returns (p: int)
    requires Pushed(g, roots, stack, n)
    ensures -1 <= p < |stack| && forall q :: p < q < |stack| ==> stack[q].Discover?
    ensures if p == -1 then n in roots else stack[p].Finish? && n in g(stack[p].node)
  {
    if stack == [] {
      p := -1;
    } else if stack[|stack| - 1].Finish? {
      p := |stack| - 1;
    } else {
      p := TopGray(g, roots, stack[..|stack| - 1], n);
    }
  }

  /** Where the new node hangs in the discovery tree: below the node opened last. */
  lemma FindParent(g: Graph, roots: seq<int>, s: State, n: int) returns (parent: int)
    requires Indexed(s) && Stacked(g, roots, s) && Lowlinked(g, s)
    requires s.stack != [] && s.stack[|s.stack| - 1] == Discover(n)
    ensures -1 <= parent < |s.subtree|
    ensures if parent == -1 then n in roots else n in g(s.subtree[parent])
    ensures forall i :: 0 <= i < |s.subtree| && s.Gray(s.subtree[i]) ==> i <= parent
  {
    hide Above, Pushed, Lowlinked;
    assert Pushed(g, roots, s.stack[..|s.stack| - 1], n);
    var top := |s.stack| - 1;
    var p := TopGray(g, roots, s.stack[..top], n);
    assert forall q :: p < q < top ==> s.stack[..top][q] == s.stack[q];
    if p == -1 {
      parent := -1;
      if s.subtree != [] {
        NoneIsGray(s, s.subtree[0]);
        FirstIsGray(g, s);
      }
    } else {
      assert s.stack[..top][p] == s.stack[p];
      parent := ParentAt(g, roots, s, p);
    }
  }

  lemma ParentAt(g: Graph, roots: seq<int>, s: State, p: int) returns (parent: int)
    requires Indexed(s) && Stacked(g, roots, s)
    requires 0 <= p < |s.stack| && s.stack[p].Finish? && forall q :: p < q < |s.stack| ==> s.stack[q].Discover?
    ensures 0 <= parent < |s.subtree| && s.subtree[parent] == s.stack[p].node
    ensures forall i :: 0 <= i < |s.subtree| && s.Gray(s.subtree[i]) ==> i <= parent
  {
    hide Above, Pushed;
    var x := s.stack[p].node;
    parent :| 0 <= parent < |s.subtree| && s.subtree[parent] == x;
    forall i | 0 <= i < |s.subtree| && s.Gray(s.subtree[i]) ensures i <= parent {
      GrayOrder(g, roots, s, s.subtree[i], p);
    }
  }

  lemma NoneIsGray(s: State, x: int)
    requires forall q :: 0 <= q < |s.stack| ==> s.stack[q].Discover?
    ensures !s.Gray(x)
  {}

  /** No open node has a greater index than the topmost one. */
  lemma GrayOrder(g: Graph, roots: seq<int>, s: State, x: int, p: int)
    requires Indexed(s) && Stacked(g, roots, s) && s.Gray(x)
    requires 0 <= p < |s.stack| && s.stack[p].Finish? && forall q :: p < q < |s.stack| ==> s.stack[q].Discover?
    ensures x in s.index && s.stack[p].node in s.index && s.index[x] <= s.index[s.stack[p].node]
  {
    hide Above, Pushed;
    var q :| 0 <= q < |s.stack| && s.stack[q] == Finish(x);
    assert q <= p;
  }

  lemma NewFromRoots(g: Graph, roots: seq<int>, s: State, n: int, parent: int)
    requires Indexed(s) && forall n :: n in s.index ==> FromRoots(g, roots, n)
    requires -1 <= parent < |s.subtree|
    requires if parent == -1 then n in roots else n in g(s.subtree[parent])
    ensures FromRoots(g, roots, n)
  {
    if parent == -1 {
      ReachesSelf(g, n);
    } else {
      var x := s.subtree[parent];
      assert x in s.subtree;
      var r :| r in roots && Reaches(g, r, x);
      ReachesEdge(g, x, n);
      ReachesTransitive(g, r, x, n);
    }
  }

  lemma DiscoverKeepsIndexed(g: Graph, s: State, n: int, pushes: seq<Frame>, parent: int, s': State)
    requires Indexed(s) && Discovers(g, s, n, pushes, parent, s')
    ensures Indexed(s')
  {
    assert n !in s.index.Keys && s'.index.Keys == s.index.Keys + {n};
    assert |s'.index| == |s.index| + 1;
    DiscoverKeepsSubtree(g, s, n, pushes, parent, s');
  }

  lemma DiscoverKeepsSubtree(g: Graph, s: State, n: int, pushes: seq<Frame>, parent: int, s': State)
    requires Indexed(s) && Discovers(g, s, n, pushes, parent, s')
    ensures forall j :: 0 <= j < |s'.subtree| ==> s'.subtree[j] in s'.index && s'.subtree[j] !in s'.removed
    ensures forall i, j :: 0 <= i < j < |s'.subtree| ==> s'.index[s'.subtree[i]] < s'.index[s'.subtree[j]]
  {
    var m := |s.subtree|;
    assert s'.subtree[m] == n;
    assert forall j :: 0 <= j < m ==> s'.subtree[j] == s.subtree[j] && s.subtree[j] in s.index && s.subtree[j] != n;
  }

  lemma DiscoverGray(g: Graph, s: State, n: int, pushes: seq<Frame>, parent: int, s': State, x: int)
    requires Discovers(g, s, n, pushes, parent, s')
    ensures s'.Gray(x) <==> s.Gray(x) || x == n
  {
    var kept := s.stack[..|s.stack| - 1];
    assert s.stack == kept + [Discover(n)];
    assert Finish(x) in kept <==> Finish(x) in s.stack;
    assert Finish(x) !in pushes;
    assert Finish(n) in [Finish(n)];
  }

  /** Positions in the new stack: the old frames, the opened node, its children. */
  ghost predicate Extended(st: seq<Frame>, st': seq<Frame>, top: int, n: int, pushes: seq<Frame>) {
    && 0 <= top < |st'| && top < |st| && |st'| == top + 1 + |pushes|
    && (forall p :: 0 <= p < top ==> st'[p] == st[p])
    && st'[top] == Finish(n)
    && (forall p :: top < p < |st'| ==> st'[p] == pushes[p - top - 1])
    && (forall i :: 0 <= i < |pushes| ==> st'[i + top + 1] == pushes[i])
  }

  lemma DiscoverExtends(g: Graph, s: State, n: int, pushes: seq<Frame>, parent: int, s': State)
    requires Discovers(g, s, n, pushes, parent, s')
    ensures Extended(s.stack, s'.stack, |s.stack| - 1, n, pushes)
  {}

  lemma StillAbove(st: seq<Frame>, st': seq<Frame>, top: int, n: int, pushes: seq<Frame>, p: int, c: int)
    requires Extended(st, st', top, n, pushes) && top == |st| - 1 && st[top] == Discover(n) && c != n
    requires Above(st, p, c)
    ensures Above(st', p, c)
  {
    var q :| 0 <= q < |st| && p < q && st[q] == Discover(c);
    assert st'[q] == Discover(c);
  }

  lemma ChildAbove(st: seq<Frame>, st': seq<Frame>, top: int, n: int, pushes: seq<Frame>, c: int)
    requires Extended(st, st', top, n, pushes) && Discover(c) in pushes
    ensures Above(st', top, c)
  {
    var i :| 0 <= i < |pushes| && pushes[i] == Discover(c);
    assert st'[i + top + 1] == Discover(c);
  }

  lemma DiscoverKeepsPending(g: Graph, roots: seq<int>, s: State, n: int, pushes: seq<Frame>, s': State, top: int)
    requires Indexed(s) && Stacked(g, roots, s) && top == |s.stack| - 1
    requires Extended(s.stack, s'.stack, top, n, pushes) && s.stack[top] == Discover(n)
    requires s'.index.Keys == s.index.Keys + {n}
    requires forall c :: c in g(n) && c !in s.removed ==> Discover(c) in pushes
    requires forall i :: 0 <= i < |pushes| ==> pushes[i].Discover?
    ensures forall p, c :: 0 <= p < |s'.stack| && s'.stack[p].Finish? && c in g(s'.stack[p].node) ==>
      c in s'.index || Above(s'.stack, p, c)
    ensures forall r :: r in roots ==> r in s'.index || Discover(r) in s'.stack
  {
    hide Above, Pushed;
    var st := s'.stack;
    forall p, c | 0 <= p < |st| && st[p].Finish? && c in g(st[p].node) ensures c in s'.index.Keys || Above(st, p, c) {
      if p == top {
        if c !in s.removed {
          ChildAbove(s.stack, st, top, n, pushes, c);
        }
      } else if c !in s'.index.Keys {
        assert p < top && st[p] == s.stack[p];
        StillAbove(s.stack, st, top, n, pushes, p, c);
      }
    }
    forall r | r in roots ensures r in s'.index.Keys || Discover(r) in st {
      if r !in s'.index.Keys {
        var q :| 0 <= q < |s.stack| && s.stack[q] == Discover(r);
        assert st[q] == Discover(r);
      }
    }
  }

  lemma DiscoverKeepsPushed(g: Graph, roots: seq<int>, s: State, n: int, pushes: seq<Frame>, st: seq<Frame>, top: int)
    requires Indexed(s) && Stacked(g, roots, s) && top == |s.stack| - 1
    requires Extended(s.stack, st, top, n, pushes)
    requires forall i :: 0 <= i < |pushes| ==> pushes[i].Discover? && pushes[i].node in g(n)
    ensures forall q :: 0 <= q < |st| && st[q].Discover? ==> Pushed(g, roots, st[..q], st[q].node)
  {
    forall q | 0 <= q < |st| && st[q].Discover? ensures Pushed(g, roots, st[..q], st[q].node) {
      if q < top {
        assert st[..q] == s.stack[..q];
      } else {
        ChildrenPushed(g, roots, st, n, top, q);
      }
    }
  }

  lemma DiscoverKeepsStacked(g: Graph, roots: seq<int>, s: State, n: int, pushes: seq<Frame>, parent: int, s': State)
    requires Indexed(s) && Stacked(g, roots, s) && Discovers(g, s, n, pushes, parent, s') && Indexed(s')
    ensures Stacked(g, roots, s')
  {
    hide Above, Pushed;
    var top := |s.stack| - 1;
    DiscoverExtends(g, s, n, pushes, parent, s');
    assert s'.index.Keys == s.index.Keys + {n};
    DiscoverKeepsPending(g, roots, s, n, pushes, s', top);
    DiscoverKeepsPushed(g, roots, s, n, pushes, s'.stack, top);
    DiscoverKeepsOrder(g, roots, s, n, pushes, parent, s', top);
  }

  lemma DiscoverKeepsOpen(
    g: Graph, roots: seq<int>, s: State, n: int, pushes: seq<Frame>, parent: int, s': State, top: int)
    requires Indexed(s) && Stacked(g, roots, s) && Discovers(g, s, n, pushes, parent, s') && Indexed(s')
    requires Extended(s.stack, s'.stack, top, n, pushes) && top == |s.stack| - 1
    ensures forall p :: 0 <= p < |s'.stack| && s'.stack[p].Finish? ==> p <= top && s'.stack[p].node in s'.subtree
  {
    hide Above, Pushed;
    assert s'.subtree[|s.subtree|] == n;
    forall p | 0 <= p < |s'.stack| && s'.stack[p].Finish? ensures p <= top && s'.stack[p].node in s'.subtree {
      if p < top {
        assert s.stack[p] == s'.stack[p] && s.stack[p].node in s.subtree;
      }
    }
  }

  lemma DiscoverKeepsOrder(
    g: Graph, roots: seq<int>, s: State, n: int, pushes: seq<Frame>, parent: int, s': State, top: int)
    requires Indexed(s) && Stacked(g, roots, s) && Discovers(g, s, n, pushes, parent, s') && Indexed(s')
    requires Extended(s.stack, s'.stack, top, n, pushes) && top == |s.stack| - 1
    ensures forall p :: 0 <= p < |s'.stack| && s'.stack[p].Finish? ==> p <= top && s'.stack[p].node in s'.subtree
    ensures forall p, q :: 0 <= p < q < |s'.stack| && s'.stack[p].Finish? && s'.stack[q].Finish? ==>
      s'.index[s'.stack[p].node] < s'.index[s'.stack[q].node]
  {
    hide Above, Pushed;
    DiscoverKeepsOpen(g, roots, s, n, pushes, parent, s', top);
    forall p, q | 0 <= p < q < |s'.stack| && s'.stack[p].Finish? && s'.stack[q].Finish?
      ensures s'.index[s'.stack[p].node] < s'.index[s'.stack[q].node]
    {
      assert s.stack[p] == s'.stack[p] && s.stack[p].node in s.subtree;
      if q < top {
        assert s.stack[q] == s'.stack[q];
      }
    }
  }

  lemma {:induction false} ChildrenPushed(g: Graph, roots: seq<int>, st: seq<Frame>, n: int, top: nat, q: nat)
    requires top < q < |st| && st[top] == Finish(n)
    requires forall p :: top < p < |st| ==> st[p].Discover? && st[p].node in g(n)
    ensures Pushed(g, roots, st[..q], st[q].node)
  {
    ChildrenPushedFrom(g, roots, st, n, top, q, st[q].node);
  }

  lemma {:induction false} ChildrenPushedFrom(g: Graph, roots: seq<int>, st: seq<Frame>, n: int, top: nat, q: nat,
      c: int)
    requires top < q <= |st| && st[top] == Finish(n) && c in g(n)
    requires forall p :: top < p < |st| ==> st[p].Discover?
    ensures Pushed(g, roots, st[..q], c)
    decreases q
  {
    if q > top + 1 {
      ChildrenPushedFrom(g, roots, st, n, top, q - 1, c);
      assert st[..q][..q - 1] == st[..q - 1];
    }
  }

  lemma DiscoverKeepsTreed(g: Graph, roots: seq<int>, s: State, n: int, pushes: seq<Frame>, parent: int, s': State)
    requires Treed(g, s) && Discovers(g, s, n, pushes, parent, s')
    requires -1 <= parent < |s.subtree| && (parent >= 0 ==> n in g(s.subtree[parent]))
    requires forall i :: 0 <= i < |s.subtree| && s.Gray(s.subtree[i]) ==> i <= parent
    requires n !in s.subtree
    ensures Treed(g, s')
  {
    var last := |s.subtree|;
    forall i, k | 0 <= i < k < |s'.subtree| && s'.Gray(s'.subtree[i]) ensures i <= s'.parent[k] {
      DiscoverGray(g, s, n, pushes, parent, s', s'.subtree[i]);
      assert s.subtree[i] in s.subtree;
      assert s.Gray(s.subtree[i]);
    }
  }

  lemma DiscoverKeepsLowlinked(g: Graph, roots: seq<int>, s: State, n: int, pushes: seq<Frame>, parent: int, s': State)
    requires Indexed(s) && Lowlinked(g, s) && Discovers(g, s, n, pushes, parent, s') && Indexed(s')
    ensures Lowlinked(g, s')
  {
    forall x | x in s'.subtree
      ensures if s'.Gray(x) then s'.lowlink[x] == s'.index[x] else LeadsBack(g, s', x) && LowBound(g, s', x)
    {
      DiscoverGray(g, s, n, pushes, parent, s', x);
      if x != n {
        assert x in s.subtree;
        if !s.Gray(x) {
          assert LeadsBack(g, s, x) && LowBound(g, s, x);
          var y :| y in s.subtree && s.index[y] == s.lowlink[x] && Reaches(g, x, y);
          assert y in s'.subtree && s'.index[y] == s'.lowlink[x];
          forall c | c in g(x) ensures s'.Gray(c) <==> s.Gray(c) {
            DiscoverGray(g, s, n, pushes, parent, s', c);
          }
        }
      }
    }
  }

  lemma DiscoverKeepsInv(g: Graph, roots: seq<int>, s: State, n: int, pushes: seq<Frame>, parent: int, s': State)
    requires Inv(g, roots, s) && Discovers(g, s, n, pushes, parent, s')
    requires -1 <= parent < |s.subtree|
    requires if parent == -1 then n in roots else n in g(s.subtree[parent])
    requires forall i :: 0 <= i < |s.subtree| && s.Gray(s.subtree[i]) ==> i <= parent
    ensures Inv(g, roots, s')
  {
    NewFromRoots(g, roots, s, n, parent);
    DiscoverKeepsIndexed(g, s, n, pushes, parent, s');
    DiscoverKeepsStacked(g, roots, s, n, pushes, parent, s');
    DiscoverKeepsTreed(g, roots, s, n, pushes, parent, s');
    DiscoverKeepsLowlinked(g, roots, s, n, pushes, parent, s');
  }

  // ---------------------------------------------------------------------
  // Finishing a node
  // ---------------------------------------------------------------------

  /** `low` is the least index that the node's edges and its finished children lead to. */
  ghost predicate IsLow(g: Graph, s: State, n: int, low: nat)
    requires Indexed(s) && n in s.index
    requires forall c :: c in g(n) ==> c in s.index
  {
    && low <= s.index[n]
    && (forall c :: c in g(n) && c !in s.removed ==> low <= Candidate(s, n, c))
    && (low == s.index[n] || exists c :: c in g(n) && c !in s.removed && low == Candidate(s, n, c))
  }

  ghost function Candidate(s: State, n: int, c: int): nat
    requires Indexed(s) && n in s.index && c in s.index
  {
    if s.index[c] <= s.index[n] then s.index[c] else s.lowlink[c]
  }

  /** `n` is about to be finished. */
  ghost predicate AtFinish(g: Graph, roots: seq<int>, s: State, n: int) {
    Indexed(s) && Stacked(g, roots, s) && s.stack != [] && s.stack[|s.stack| - 1] == Finish(n)
  }

  /** `n`, at position `i` of `subtree`, is the last open node, and its edges have all been followed. */
  ghost predicate Finishing(g: Graph, s: State, n: int, i: nat)
    requires Indexed(s)
  {
    && i < |s.subtree| && s.subtree[i] == n
    && s.Gray(n)
    && (forall c :: c in g(n) ==> c in s.index)
    && (forall x :: x in s.subtree && s.index[x] > s.index[n] ==> !s.Gray(x))
  }

  lemma FinishFacts(g: Graph, roots: seq<int>, s: State, n: int) returns (i: nat)
    requires AtFinish(g, roots, s, n)
    ensures Finishing(g, s, n, i)
    ensures Finish(n) !in s.stack[..|s.stack| - 1]
  {
    var top := |s.stack| - 1;
    i :| 0 <= i < |s.subtree| && s.subtree[i] == n;
    forall c | c in g(n) ensures c in s.index {
      assert !Above(s.stack, top, c);
    }
    forall x | x in s.subtree && s.Gray(x) ensures s.index[x] <= s.index[n] {
      var q :| 0 <= q < |s.stack| && s.stack[q] == Finish(x);
    }
    forall q | 0 <= q < top ensures s.stack[..top][q] != Finish(n) {
      assert s.stack[..top][q] == s.stack[q];
    }
  }

  /** Only the finished node stops being open. */
  lemma FinishGray(s: State, n: int, st: seq<Frame>, x: int)
    requires s.stack == st + [Finish(n)] && x != n
    ensures s.Gray(x) <==> Finish(x) in st
  {}

  lemma LastFrame(st: seq<Frame>)
    requires st != []
    ensures st == st[..|st| - 1] + [st[|st| - 1]]
  {}

  /** A node whose lowlink is below its own index stays in `subtree`. */
  lemma FinishInside(g: Graph, roots: seq<int>, s: State, n: int, i: nat, low: nat, s': State)
    requires Inv(g, roots, s) && AtFinish(g, roots, s, n) && Finishing(g, s, n, i)
    requires Finish(n) !in s.stack[..|s.stack| - 1] && n in s.index
    requires IsLow(g, s, n, low) && low < s.index[n]
    requires s' == s.(stack := s.stack[..|s.stack| - 1], lowlink := s.lowlink[n := low])
    ensures Inv(g, roots, s')
  {
    hide Indexed, Stacked, Treed, Lowlinked, Emissions, IsLow, FromRoots, Finishing;
    LastFrame(s.stack);
    FinishKeepsIndexed(g, roots, s, n, low, s');
    PopKeepsStacked(g, roots, s, s');
    FinishKeepsTreed(g, s, n, s');
    FinishKeepsLowlinked(g, s, n, i, low, s');
    SameEmissions(g, s, s');
  }

  lemma FinishKeepsIndexed(g: Graph, roots: seq<int>, s: State, n: int, low: nat, s': State)
    requires Indexed(s) && Stacked(g, roots, s) && s.stack != [] && n in s.index
    requires s' == s.(stack := s.stack[..|s.stack| - 1], lowlink := s.lowlink[n := low])
    ensures Indexed(s')
    ensures forall p :: 0 <= p < |s'.stack| && s'.stack[p].Finish? ==> s'.stack[p].node in s'.subtree
  {
    hide Above, Pushed;
    forall p | 0 <= p < |s'.stack| && s'.stack[p].Finish? ensures s'.stack[p].node in s'.subtree {
      assert s.stack[p] == s'.stack[p];
    }
  }

  lemma FinishKeepsTreed(g: Graph, s: State, n: int, s': State)
    requires Treed(g, s) && s.stack == s'.stack + [Finish(n)] && s'.subtree == s.subtree && s'.parent == s.parent
    ensures Treed(g, s')
  {
    forall j, k | 0 <= j < k < |s'.subtree| && s'.Gray(s'.subtree[j]) ensures j <= s'.parent[k] {
      assert s.Gray(s.subtree[j]);
    }
  }

  lemma FinishKeepsLowlinked(g: Graph, s: State, n: int, i: nat, low: nat, s': State)
    requires Indexed(s) && Lowlinked(g, s) && Indexed(s') && Finishing(g, s, n, i)
    requires s.stack == s'.stack + [Finish(n)] && Finish(n) !in s'.stack
    requires IsLow(g, s, n, low) && low < s.index[n]
    requires s' == s.(stack := s'.stack, lowlink := s.lowlink[n := low])
    ensures Lowlinked(g, s')
  {
    forall x | x in s'.subtree
      ensures if s'.Gray(x) then s'.lowlink[x] == s'.index[x] else LeadsBack(g, s', x) && LowBound(g, s', x)
    {
      if x == n {
        FinishedLeadsBack(g, s, n, i, low, s');
        FinishedLowBound(g, s, n, i, low, s');
      } else {
        FinishGray(s, n, s'.stack, x);
        if !s.Gray(x) {
          OthersKeepLow(g, s, n, i, low, s', x);
        }
      }
    }
  }

  lemma OthersKeepLow(g: Graph, s: State, n: int, i: nat, low: nat, s': State, x: int)
    requires Indexed(s) && Indexed(s') && Finishing(g, s, n, i) && x != n
    requires LeadsBack(g, s, x) && LowBound(g, s, x)
    requires s.stack == s'.stack + [Finish(n)]
    requires s' == s.(stack := s'.stack, lowlink := s.lowlink[n := low])
    ensures LeadsBack(g, s', x) && LowBound(g, s', x)
  {
    forall c | c in g(x) && c != n ensures s'.Gray(c) <==> s.Gray(c) {
      FinishGray(s, n, s'.stack, c);
    }
  }

  lemma FinishedLeadsBack(g: Graph, s: State, n: int, i: nat, low: nat, s': State)
    requires Indexed(s) && Lowlinked(g, s) && Indexed(s') && Finishing(g, s, n, i)
    requires IsLow(g, s, n, low) && low < s.index[n]
    requires s' == s.(stack := s'.stack, lowlink := s.lowlink[n := low])
    ensures LeadsBack(g, s', n)
  {
    var c :| c in g(n) && c !in s.removed && low == Candidate(s, n, c);
    ReachesEdge(g, n, c);
    if s.index[c] > s.index[n] {
      assert LeadsBack(g, s, c);
      var y :| y in s.subtree && s.index[y] == s.lowlink[c] && Reaches(g, c, y);
      ReachesTransitive(g, n, c, y);
    }
  }

  lemma FinishedLowBound(g: Graph, s: State, n: int, i: nat, low: nat, s': State)
    requires Indexed(s) && Indexed(s') && Finishing(g, s, n, i)
    requires s.stack == s'.stack + [Finish(n)]
    requires IsLow(g, s, n, low)
    requires s' == s.(stack := s'.stack, lowlink := s.lowlink[n := low])
    ensures LowBound(g, s', n)
  {
    forall c | c in g(n) && c !in s.removed
      ensures low <= Candidate(s, n, c) && (s.index[c] > s.index[n] ==> !s'.Gray(c))
    {
      if s.index[c] > s.index[n] {
        FinishGray(s, n, s'.stack, c);
      }
    }
  }

  // ---------------------------------------------------------------------
  // Emitting a component
  // ---------------------------------------------------------------------

  /** `n` is the root of a component: nothing its subtree leads to lies further down. */
  ghost predicate AtRoot(g: Graph, s: State, n: int, i: nat) {
    Indexed(s) && Lowlinked(g, s) && Finishing(g, s, n, i) && IsLow(g, s, n, s.index[n])
  }

  lemma AboveIsFinished(g: Graph, s: State, n: int, i: nat, k: nat)
    requires Indexed(s) && Lowlinked(g, s) && Finishing(g, s, n, i) && i < k < |s.subtree|
    ensures LeadsBack(g, s, s.subtree[k]) && LowBound(g, s, s.subtree[k])
  {
    assert s.subtree[k] in s.subtree;
  }

  lemma OrderedByIndex(s: State, j: nat, k: nat)
    requires Indexed(s) && j < |s.subtree| && k < |s.subtree|
    ensures s.subtree[j] in s.index && s.subtree[k] in s.index
    ensures s.index[s.subtree[j]] < s.index[s.subtree[k]] <==> j < k
  {
    assert s.subtree[j] in s.subtree && s.subtree[k] in s.subtree;
  }

  /** A node with an index no less than that of the node at `i` lies at `i` or above. */
  lemma PositionOf(s: State, y: int, i: nat) returns (j: nat)
    requires Indexed(s) && i < |s.subtree| && y in s.subtree && s.subtree[i] in s.index
    requires s.index[y] >= s.index[s.subtree[i]]
    ensures i <= j < |s.subtree| && s.subtree[j] == y
  {
    j :| 0 <= j < |s.subtree| && s.subtree[j] == y;
    OrderedByIndex(s, j, i);
  }

  /** From the root on, no lowlink is below the root's index. */
  lemma {:induction false} LowAboveRoot(g: Graph, s: State, n: int, i: nat, k: nat)
    requires AtRoot(g, s, n, i) && Treed(g, s) && i < k < |s.subtree|
    ensures s.subtree[k] in s.lowlink && s.lowlink[s.subtree[k]] >= s.index[n]
    decreases k
  {
    hide LeadsBack;
    var m := s.parent[k];
    var x, y := s.subtree[m], s.subtree[k];
    assert x in s.subtree && y in s.subtree;
    if m > i {
      LowAboveRoot(g, s, n, i, m);
      AboveIsFinished(g, s, n, i, m);
    }
  }

  /** Every node from the root on is reached by the root ... */
  lemma {:induction false} RootReaches(g: Graph, s: State, n: int, i: nat, k: nat)
    requires Treed(g, s) && i <= k < |s.subtree| && s.subtree[i] == n && s.Gray(n)
    ensures Reaches(g, n, s.subtree[k])
    decreases k
  {
    if k == i {
      ReachesSelf(g, n);
    } else {
      var m := s.parent[k];
      RootReaches(g, s, n, i, m);
      ReachesEdge(g, s.subtree[m], s.subtree[k]);
      ReachesTransitive(g, n, s.subtree[m], s.subtree[k]);
    }
  }

  /** ... and reaches it. */
  lemma {:induction false} ReachesRoot(g: Graph, s: State, n: int, i: nat, k: nat)
    requires AtRoot(g, s, n, i) && Treed(g, s) && i <= k < |s.subtree|
    ensures Reaches(g, s.subtree[k], n)
    decreases k
  {
    if k == i {
      ReachesSelf(g, n);
    } else {
      var x := s.subtree[k];
      AboveIsFinished(g, s, n, i, k);
      LowAboveRoot(g, s, n, i, k);
      var y :| y in s.subtree && s.index[y] == s.lowlink[x] && Reaches(g, x, y);
      var j := PositionOf(s, y, i);
      OrderedByIndex(s, j, k);
      ReachesRoot(g, s, n, i, j);
      ReachesTransitive(g, x, y, n);
    }
  }

  /** No edge leaves that part except to removed nodes. */
  lemma EdgesStayAbove(g: Graph, s: State, n: int, i: nat, k: nat, c: int)
    requires AtRoot(g, s, n, i) && Treed(g, s) && i <= k < |s.subtree| && c in g(s.subtree[k])
    ensures c in s.removed || c in s.subtree[i..]
  {
    var x := s.subtree[k];
    assert x in s.subtree;
    if k > i {
      LowAboveRoot(g, s, n, i, k);
      AboveIsFinished(g, s, n, i, k);
    }
    if c !in s.removed {
      assert c in s.subtree && s.index[c] >= s.index[n];
      var j := PositionOf(s, c, i);
      assert s.subtree[i..][j - i] == c;
    }
  }

  lemma SegmentIsClosed(g: Graph, s: State, n: int, i: nat, a: int, b: int)
    requires AtRoot(g, s, n, i) && Treed(g, s) && i < |s.subtree| && a in s.subtree[i..] && b in g(a)
    ensures b in s.removed || b in s.subtree[i..]
  {
    hide LowBound, LeadsBack, IsLow, Finishing, Treed;
    var k :| 0 <= k < |s.subtree[i..]| && s.subtree[i..][k] == a;
    EdgesStayAbove(g, s, n, i, i + k, b);
  }

  lemma SegmentConnects(g: Graph, s: State, n: int, i: nat, a: int)
    requires AtRoot(g, s, n, i) && Treed(g, s) && i < |s.subtree| && a in s.subtree[i..]
    ensures Reaches(g, n, a) && Reaches(g, a, n) && a in s.index && a !in s.removed
  {
    hide LowBound, LeadsBack, IsLow, Lowlinked, Treed, Reaches;
    var j := InSegment(s.subtree, i, a);
    RootReaches(g, s, n, i, j);
    ReachesRoot(g, s, n, i, j);
  }

  lemma InSegment(subtree: seq<int>, i: nat, a: int) returns (j: nat)
    requires i <= |subtree| && a in subtree[i..]
    ensures i <= j < |subtree| && subtree[j] == a
  {
    var k :| 0 <= k < |subtree[i..]| && subtree[i..][k] == a;
    j := i + k;
  }

  /** The root and everything above it in `subtree` is one component. */
  lemma SegmentIsComponent(g: Graph, s: State, n: int, i: nat, scc: seq<int>)
    requires AtRoot(g, s, n, i) && Treed(g, s) && i < |s.subtree| && Closed(g, s.removed)
    requires forall a :: a in scc <==> a in s.subtree[i..]
    ensures IsComponent(g, scc)
    ensures forall a, b :: a in scc && b in g(a) ==> b in s.removed || b in scc
  {
    var all := s.removed + set a | a in scc;
    forall a, b | a in scc && b in g(a) ensures b in s.removed || b in scc {
      SegmentIsClosed(g, s, n, i, a, b);
    }
    assert Closed(g, all);
    assert s.subtree[i..][0] == n;
    assert n in scc;
    forall a, b | a in scc ensures b in scc <==> Reaches(g, a, b) && Reaches(g, b, a) {
      SegmentConnects(g, s, n, i, a);
      if b in scc {
        SegmentConnects(g, s, n, i, b);
        ReachesTransitive(g, a, n, b);
        ReachesTransitive(g, b, n, a);
      } else if Reaches(g, a, b) && Reaches(g, b, a) {
        ReachesStaysInClosed(g, all, a, b);
        ReachesStaysInClosed(g, s.removed, b, a);
      }
    }
  }

  /** The component is taken off `subtree` and listed. */
  lemma FinishRoot(g: Graph, roots: seq<int>, s: State, n: int, i: nat, scc: seq<int>, s': State)
    requires Inv(g, roots, s) && AtFinish(g, roots, s, n) && AtRoot(g, s, n, i) && i < |s.subtree|
    requires Finish(n) !in s.stack[..|s.stack| - 1]
    requires forall a :: a in scc <==> a in s.subtree[i..]
    requires forall a, b :: 0 <= a < b < |scc| ==> scc[a] != scc[b]
    requires s' == s.(stack := s.stack[..|s.stack| - 1], removed := s.removed + (set a | a in scc),
      subtree := s.subtree[..i], parent := s.parent[..i], sccs := s.sccs + [scc])
    ensures Inv(g, roots, s')
  {
    hide FromRoots, Emitted, Closed;
    hide Indexed, Stacked, Treed, Lowlinked, IsLow, Finishing, IsComponent, Each, Ordered;
    SegmentIsComponent(g, s, n, i, scc);
    SegmentIsLive(g, s, i, scc);
    EmitKeepsIndexed(g, s, n, i, scc, s');
    EmitKeepsOpen(g, roots, s, n, i, s');
    PopKeepsStacked(g, roots, s, s');
    assert s.stack == s'.stack + [Finish(n)];
    EmitKeepsTreed(g, s, n, i, s');
    EmitKeepsLowlinked(g, s, n, i, s');
    EmitKeepsEmissions(g, s, scc, s');
  }

  lemma SegmentIsLive(g: Graph, s: State, i: nat, scc: seq<int>)
    requires Indexed(s) && i <= |s.subtree| && forall a :: a in scc <==> a in s.subtree[i..]
    ensures forall a :: a in scc ==> a in s.subtree && a !in s.removed
  {
    assert s.subtree == s.subtree[..i] + s.subtree[i..];
  }

  lemma EmitKeepsIndexed(g: Graph, s: State, n: int, i: nat, scc: seq<int>, s': State)
    requires Indexed(s) && i < |s.subtree|
    requires forall a :: a in scc <==> a in s.subtree[i..]
    requires s' == s.(stack := s'.stack, removed := s.removed + (set a | a in scc),
      subtree := s.subtree[..i], parent := s'.parent, sccs := s'.sccs)
    ensures Indexed(s')
  {
    hide Stacked;
    forall j | 0 <= j < i ensures s.subtree[j] !in scc {
      var x := s.subtree[j];
      NotAbove(s, i, j);
      assert x !in scc;
    }
    forall a | a in s.index && a !in s'.removed ensures a in s'.subtree {
      SplitAt(s.subtree, i, a);
      assert a !in scc;
    }
    forall a | a in scc ensures a in s.index {
      var k :| 0 <= k < |s.subtree[i..]| && s.subtree[i..][k] == a;
      assert s.subtree[i + k] == a;
    }
  }

  lemma NotAbove(s: State, i: nat, j: nat)
    requires Indexed(s) && j < i <= |s.subtree|
    ensures s.subtree[j] !in s.subtree[i..]
  {}

  lemma SplitAt(list: seq<int>, i: nat, a: int)
    requires i <= |list| && a in list
    ensures a in list[..i] || a in list[i..]
  {
    assert list == list[..i] + list[i..];
  }

  lemma EmitKeepsOpen(g: Graph, roots: seq<int>, s: State, n: int, i: nat, s': State)
    requires AtFinish(g, roots, s, n) && Finishing(g, s, n, i)
    requires s'.stack == s.stack[..|s.stack| - 1] && s'.subtree == s.subtree[..i]
    ensures forall p :: 0 <= p < |s'.stack| && s'.stack[p].Finish? ==> s'.stack[p].node in s'.subtree
  {
    hide Above, Pushed;
    var top := |s.stack| - 1;
    forall p | 0 <= p < top && s.stack[p].Finish? ensures s.stack[p].node in s'.subtree {
      var j :| 0 <= j < |s.subtree| && s.subtree[j] == s.stack[p].node;
      assert s.index[s.stack[p].node] < s.index[s.stack[top].node];
      assert s'.subtree[j] == s.stack[p].node;
    }
  }

  lemma EmitKeepsTreed(g: Graph, s: State, n: int, i: nat, s': State)
    requires Treed(g, s) && i < |s.subtree| && s.stack == s'.stack + [Finish(n)]
    requires s'.subtree == s.subtree[..i] && s'.parent == s.parent[..i]
    ensures Treed(g, s')
  {
    forall j, k | 0 <= j < k < i && s'.Gray(s'.subtree[j]) ensures j <= s'.parent[k] {
      assert s.Gray(s.subtree[j]);
    }
  }

  /** What a node leads back to is below it in `subtree`, so it stays. */
  lemma EmitKeepsLead(g: Graph, s: State, i: nat, s': State, x: int)
    requires Indexed(s) && Indexed(s') && i < |s.subtree| && LeadsBack(g, s, x)
    requires s'.subtree == s.subtree[..i] && s'.index == s.index && s'.lowlink == s.lowlink && x in s'.subtree
    ensures LeadsBack(g, s', x)
  {
    hide Reaches;
    var k :| 0 <= k < i && s'.subtree[k] == x;
    var y :| y in s.subtree && s.index[y] == s.lowlink[x] && Reaches(g, x, y);
    var j :| 0 <= j < |s.subtree| && s.subtree[j] == y;
    assert s.subtree[k] == x;
    assert s'.subtree[j] == y;
  }

  lemma EmitKeepsBack(g: Graph, s: State, n: int, i: nat, s': State, x: int)
    requires Indexed(s) && Lowlinked(g, s) && Indexed(s') && Finishing(g, s, n, i)
    requires s.stack == s'.stack + [Finish(n)]
    requires s.removed <= s'.removed
    requires s'.subtree == s.subtree[..i] && s'.index == s.index && s'.lowlink == s.lowlink
    requires x in s'.subtree && x in s.subtree && x != n && !s.Gray(x)
    ensures LeadsBack(g, s', x) && LowBound(g, s', x)
  {
    hide Reaches;
    assert LeadsBack(g, s, x) && LowBound(g, s, x);
    EmitKeepsLead(g, s, i, s', x);
    forall c | c in g(x) && c != n ensures s'.Gray(c) <==> s.Gray(c) {
      FinishGray(s, n, s'.stack, c);
    }
  }

  lemma EmitKeepsLowlinked(g: Graph, s: State, n: int, i: nat, s': State)
    requires Indexed(s) && Lowlinked(g, s) && Indexed(s') && Finishing(g, s, n, i)
    requires s.stack == s'.stack + [Finish(n)]
    requires s.removed <= s'.removed
    requires s'.subtree == s.subtree[..i] && s'.index == s.index && s'.lowlink == s.lowlink
    ensures Lowlinked(g, s')
  {
    forall x | x in s'.subtree
      ensures if s'.Gray(x) then s'.lowlink[x] == s'.index[x] else LeadsBack(g, s', x) && LowBound(g, s', x)
    {
      var k :| 0 <= k < i && s'.subtree[k] == x;
      assert x == s.subtree[k] && x in s.subtree && x != n;
      FinishGray(s, n, s'.stack, x);
      if !s.Gray(x) {
        EmitKeepsBack(g, s, n, i, s', x);
      }
    }
  }

  lemma EmittedNext(sccs: seq<seq<int>>, scc: seq<int>, n: int)
    ensures Emitted(sccs + [scc], n) <==> Emitted(sccs, n) || n in scc
  {
    var next := sccs + [scc];
    if Emitted(sccs, n) {
      var j :| 0 <= j < |sccs| && n in sccs[j];
      assert n in next[j];
    } else if n in scc {
      assert n in next[|sccs|];
    }
  }

  lemma EmitKeepsEmissions(g: Graph, s: State, scc: seq<int>, s': State)
    requires Emissions(g, s) && IsComponent(g, scc)
    requires forall a, b :: a in scc && b in g(a) ==> b in s.removed || b in scc
    requires forall a :: a in scc ==> a !in s.removed
    requires forall a, b :: 0 <= a < b < |scc| ==> scc[a] != scc[b]
    requires s'.removed == s.removed + (set a | a in scc) && s'.sccs == s.sccs + [scc]
    ensures Emissions(g, s')
  {
    var last := |s.sccs|;
    forall n ensures n in s'.removed <==> Emitted(s'.sccs, n) {
      EmittedNext(s.sccs, scc, n);
    }
    forall i, j, n | 0 <= i < j < |s'.sccs| && n in s'.sccs[i] ensures n !in s'.sccs[j] {
      if j == last {
        assert n in s.sccs[i] && Emitted(s.sccs, n);
      }
    }
    forall i, a, b | 0 <= i < |s'.sccs| && a in s'.sccs[i] && b in g(a) ensures Emitted(s'.sccs[..i + 1], b) {
      if i < last {
        assert s'.sccs[..i + 1] == s.sccs[..i + 1];
      } else {
        assert s'.sccs[..i + 1] == s'.sccs;
        EmittedNext(s.sccs, scc, b);
      }
    }
  }

  // ---------------------------------------------------------------------
  // The program
  // ---------------------------------------------------------------------

  /** Nodes that can still be discovered. */
  ghost function Undiscovered(all: set<int>, index: map<int, nat>): set<int> {
    all - index.Keys
  }

  /** The least index that the edges of `n` and its finished children lead to. */
  method LowLink(ghost g: Graph, ghost s: State, n: int, children: seq<int>, index: map<int, nat>, lowlink: map<int,
      nat>)
    returns (low: nat)
    requires Indexed(s) && index == s.index && lowlink == s.lowlink && n in index && lowlink[n] == index[n]
    requires forall c :: c in g(n) ==> c in index
    requires forall c :: c in children <==> c in g(n) && c !in s.removed
    ensures IsLow(g, s, n, low)
  {
    low := lowlink[n];
    for i := 0 to |children|
      invariant low <= index[n]
      invariant forall j :: 0 <= j < i ==> low <= Candidate(s, n, children[j])
      invariant low == index[n] || exists j :: 0 <= j < i && low == Candidate(s, n, children[j])
    {
      var child := children[i];
      assert child in children;
      if index[child] <= index[n] {
        low := if index[child] < low then index[child] else low;
      } else {
        low := if lowlink[child] < low then lowlink[child] else low;
      }
    }
    forall c | c in g(n) && c !in s.removed ensures low <= Candidate(s, n, c) {
      assert c in children;
    }
    if low != index[n] {
      ghost var j :| 0 <= j < |children| && low == Candidate(s, n, children[j]);
      assert children[j] in children;
    }
  }

  /** The elements of a list that are not in the set, in order. */
  method Except(list: seq<int>, removed: set<int>) returns (kept: seq<int>)
    ensures forall c :: c in kept <==> c in list && c !in removed
  {
    kept := [];
    for i := 0 to |list|
      invariant forall c :: c in kept <==> c in list[..i] && c !in removed
    {
      if list[i] !in removed {
        kept := kept + [list[i]];
      }
      assert list[..i + 1] == list[..i] + [list[i]];
    }
    assert list[..|list|] == list;
  }

  /** The frames that discover the listed nodes, except those already removed. */
  method Pushes(list: seq<int>, removed: set<int>) returns (pushes: seq<Frame>)
    ensures forall i :: 0 <= i < |pushes| ==> pushes[i].Discover? && pushes[i].node in list
    ensures forall c :: c in list && c !in removed ==> Discover(c) in pushes
  {
    var children := Except(list, removed);
    pushes := seq(|children|, i requires 0 <= i < |children| => Discover(children[i]));
    forall i | 0 <= i < |pushes| ensures pushes[i].Discover? && pushes[i].node in list {
      assert children[i] in children;
    }
    forall c | c in list && c !in removed ensures Discover(c) in pushes {
      assert c in children;
      var i :| 0 <= i < |children| && children[i] == c;
      assert pushes[i] == Discover(c);
    }
  }

  /** Pops `subtree` down to and including `n`. */
  method PopComponent(subtree: seq<int>, n: int, ghost i: nat) returns (scc: seq<int>, rest: seq<int>)
    requires i < |subtree| && subtree[i] == n
    requires forall j, k :: 0 <= j < k < |subtree| ==> subtree[j] != subtree[k]
    ensures rest == subtree[..i]
    ensures forall a :: a in scc <==> a in subtree[i..]
    ensures forall a, b :: 0 <= a < b < |scc| ==> scc[a] != scc[b]
  {
    scc, rest := [], subtree;
    while scc == [] || scc[|scc| - 1] != n
      invariant i <= |rest| <= |subtree| && rest == subtree[..|rest|]
      invariant |scc| == |subtree| - |rest|
      invariant forall a :: 0 <= a < |scc| ==> scc[a] == subtree[|subtree| - 1 - a]
      invariant |rest| == i ==> scc != [] && scc[|scc| - 1] == n
      decreases |rest|
    {
      scc := scc + [rest[|rest| - 1]];
      rest := rest[..|rest| - 1];
    }
    assert |rest| == i;
    forall a ensures a in scc <==> a in subtree[i..] {
      if a in scc {
        var j :| 0 <= j < |scc| && scc[j] == a;
        assert subtree[i..][|subtree| - 1 - j - i] == a;
      }
      if a in subtree[i..] {
        var j :| 0 <= j < |subtree[i..]| && subtree[i..][j] == a;
        assert scc[|subtree| - 1 - (i + j)] == a;
      }
    }
  }

  /**
    Lists the strongly connected components of what the roots reach: each component
    once and entire, and every edge between two of them leading to the earlier one.
   */
  method TarjanSCC(roots: seq<int>, g: Graph, ghost all: set<int>) returns (sccs: seq<seq<int>>)
    requires Closed(g, all) && forall r :: r in roots ==> r in all
    ensures forall i :: 0 <= i < |sccs| ==> IsComponent(g, sccs[i])
    ensures Each(sccs)
    ensures forall n :: Emitted(sccs, n) <==> FromRoots(g, roots, n)
    ensures Ordered(g, sccs)
  {
    hide Stacked, Treed, Lowlinked, Emissions, Each, Ordered, IsComponent, FromRoots, Emitted, Closed, Finishing,
      IsLow, Indexed, Undiscovered;
    sccs := [];
    var counter: nat := 0;
    var index: map<int, nat>, lowlink: map<int, nat>, removed: set<int> := map[], map[], {};
    var subtree: seq<int> := [];
    var stack := seq(|roots|, i requires 0 <= i < |roots| => Discover(roots[i]));
    ghost var s := State(stack, index, lowlink, removed, subtree, [], sccs);
    Start(g, roots, s);
    while stack != []
      invariant s == State(stack, index, lowlink, removed, subtree, s.parent, sccs)
      invariant counter == |index|
      invariant Inv(g, roots, s)
      decreases |Undiscovered(all, index)|, |stack|
    {
      var top := |stack| - 1;
      var frame := stack[top];
      stack := stack[..top];
      var current := frame.node;
      if frame.Discover? {
        if current !in index {
          var pushes := Pushes(g(current), removed);
          ghost var next := DiscoverStep(g, roots, all, s, current, pushes);
          index := index[current := counter];
          lowlink := lowlink[current := counter];
          counter := counter + 1;
          subtree := subtree + [current];
          stack := stack + [Finish(current)] + pushes;
          s := next;
        } else {
          Skip(g, roots, s, s.(stack := stack));
          s := s.(stack := stack);
        }
      } else {
        ghost var i := FinishStart(g, roots, s, current);
        var children := Except(g(current), removed);
        var low := LowLink(g, s, current, children, index, lowlink);
        lowlink := lowlink[current := low];
        if index[current] == lowlink[current] {
          var scc;
          scc, subtree := PopComponent(subtree, current, i);
          ghost var next := EmitStep(g, roots, s, current, i, low, scc);
          sccs := sccs + [scc];
          removed := removed + set a | a in scc;
          s := next;
        } else {
          FinishInside(g, roots, s, current, i, low, s.(stack := stack, lowlink := lowlink));
          s := s.(stack := stack, lowlink := lowlink);
        }
      }
    }
    Finished(g, roots, s);
  }

  lemma DiscoverStep(g: Graph, roots: seq<int>, all: set<int>, s: State, n: int, pushes: seq<Frame>)
    returns (s': State)
    requires Inv(g, roots, s) && Closed(g, all) && forall r :: r in roots ==> r in all
    requires s.stack != [] && s.stack[|s.stack| - 1] == Discover(n) && n !in s.index
    requires forall i :: 0 <= i < |pushes| ==> pushes[i].Discover? && pushes[i].node in g(n)
    requires forall c :: c in g(n) && c !in s.removed ==> Discover(c) in pushes
    ensures Inv(g, roots, s')
    ensures s' == State(s.stack[..|s.stack| - 1] + [Finish(n)] + pushes, s.index[n := |s.index|],
      s.lowlink[n := |s.index|], s.removed, s.subtree + [n], s'.parent, s.sccs)
    ensures |s'.index| == |s.index| + 1
    ensures |Undiscovered(all, s'.index)| < |Undiscovered(all, s.index)|
  {
    hide Indexed, Stacked, Treed, Lowlinked, Emissions, FromRoots, Closed;
    var at := FindParent(g, roots, s, n);
    NewFromRoots(g, roots, s, n, at);
    RootsStayIn(g, roots, all, n);
    s' := State(s.stack[..|s.stack| - 1] + [Finish(n)] + pushes, s.index[n := |s.index|],
      s.lowlink[n := |s.index|], s.removed, s.subtree + [n], s.parent + [at], s.sccs);
    DiscoverKeepsInv(g, roots, s, n, pushes, at, s');
    UndiscoveredShrinks(all, s.index, n);
  }

  lemma UndiscoveredShrinks(all: set<int>, index: map<int, nat>, n: int)
    requires n in all && n !in index
    ensures |index[n := |index|]| == |index| + 1
    ensures |Undiscovered(all, index[n := |index|])| < |Undiscovered(all, index)|
  {
    var next := index[n := |index|];
    assert next.Keys == index.Keys + {n};
    assert Undiscovered(all, next) == Undiscovered(all, index) - {n};
  }

  lemma FinishStart(g: Graph, roots: seq<int>, s: State, n: int) returns (i: nat)
    requires Inv(g, roots, s) && s.stack != [] && s.stack[|s.stack| - 1] == Finish(n)
    ensures Finishing(g, s, n, i) && Finish(n) !in s.stack[..|s.stack| - 1]
    ensures i < |s.subtree| && s.subtree[i] == n
    ensures n in s.index && s.lowlink[n] == s.index[n] && forall c :: c in g(n) ==> c in s.index
    ensures forall j, k :: 0 <= j < k < |s.subtree| ==> s.subtree[j] != s.subtree[k]
  {
    i := FinishFacts(g, roots, s, n);
    OpenFacts(g, s, n, i);
  }

  lemma OpenFacts(g: Graph, s: State, n: int, i: nat)
    requires Indexed(s) && Lowlinked(g, s) && Finishing(g, s, n, i)
    ensures n in s.index && s.lowlink[n] == s.index[n]
    ensures forall j, k :: 0 <= j < k < |s.subtree| ==> s.subtree[j] != s.subtree[k]
  {
    assert n in s.subtree;
  }

  lemma EmitStep(g: Graph, roots: seq<int>, s: State, n: int, i: nat, low: nat, scc: seq<int>) returns (s': State)
    requires Inv(g, roots, s) && AtFinish(g, roots, s, n) && Finishing(g, s, n, i) && i < |s.subtree|
    requires Finish(n) !in s.stack[..|s.stack| - 1]
    requires IsLow(g, s, n, low) && low == s.index[n] == s.lowlink[n]
    requires forall a :: a in scc <==> a in s.subtree[i..]
    requires forall a, b :: 0 <= a < b < |scc| ==> scc[a] != scc[b]
    ensures Inv(g, roots, s')
    ensures s' == State(s.stack[..|s.stack| - 1], s.index, s.lowlink[n := low], s.removed + (set a | a in scc),
      s.subtree[..i], s'.parent, s.sccs + [scc])
  {
    assert s.lowlink[n := low] == s.lowlink;
    hide Indexed, Stacked, Treed, Lowlinked, Emissions, FromRoots, IsLow, Finishing;
    ParentLength(g, s);
    s' := s.(stack := s.stack[..|s.stack| - 1], removed := s.removed + (set a | a in scc),
      subtree := s.subtree[..i], parent := s.parent[..i], sccs := s.sccs + [scc]);
    FinishRoot(g, roots, s, n, i, scc, s');
  }

  lemma ParentLength(g: Graph, s: State)
    requires Treed(g, s)
    ensures |s.parent| == |s.subtree|
  {}

  lemma RootsStayIn(g: Graph, roots: seq<int>, all: set<int>, n: int)
    requires Closed(g, all) && (forall r :: r in roots ==> r in all) && FromRoots(g, roots, n)
    ensures n in all
  {
    var r :| r in roots && Reaches(g, r, n);
    ReachesStaysInClosed(g, all, r, n);
  }

  /** With an empty stack everything indexed has been emitted, and that is all the roots reach. */
  lemma Finished(g: Graph, roots: seq<int>, s: State)
    requires Inv(g, roots, s) && s.stack == []
    ensures forall i :: 0 <= i < |s.sccs| ==> IsComponent(g, s.sccs[i])
    ensures Each(s.sccs) && Ordered(g, s.sccs)
    ensures forall n :: Emitted(s.sccs, n) <==> FromRoots(g, roots, n)
  {
    hide IsComponent, Each, Ordered;
    if s.subtree != [] {
      FirstIsGray(g, s);
    }
    assert forall n :: n in s.index ==> n in s.removed;
    forall n ensures n in s.removed <==> FromRoots(g, roots, n) {
      if FromRoots(g, roots, n) {
        var r :| r in roots && Reaches(g, r, n);
        ReachesStaysInClosed(g, s.removed, r, n);
      }
    }
  }
}
