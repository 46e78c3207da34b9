/**
  Depth-first ordering with an explicit stack, after `topoSort` of own/bm_mdp.py.
  The result lists what the roots reach once each; it is a topological order exactly
  when there is no cycle among those nodes.
 */
module TopoSort {
  import opened Sorting
  import opened Tarjan

  datatype Search = Search(stack: seq<Frame>, visited: set<int>, results: seq<int>) {
    ghost predicate Open(n: int) {
      Finish(n) in stack
    }
  }

  /** `a` comes before `b`. */
  ghost predicate Precedes(order: seq<int>, a: int, b: int) {
    exists i, j :: 0 <= i < j < |order| && order[i] == a && order[j] == b
  }

  ghost predicate Bookkept(s: Search) {
    && Distinct(s.results)
    && (forall n :: n in s.visited <==> n in s.results || s.Open(n))
    && (forall n :: n in s.results ==> !s.Open(n))
  }

  /** What waits on the stack: open nodes, each reaching the ones opened after it, and their parents to visit. */
  ghost predicate Waiting(g: Graph, roots: seq<int>, s: Search) {
    && (forall p, q :: 0 <= p < q < |s.stack| && s.stack[p].Finish? && s.stack[q].Finish? ==>
          s.stack[p] != s.stack[q] && Reaches(g, s.stack[p].node, s.stack[q].node))
    && (forall p, c :: 0 <= p < |s.stack| && s.stack[p].Finish? && c in g(s.stack[p].node) ==>
          c in s.visited || Above(s.stack, p, c))
    && (forall q :: 0 <= q < |s.stack| && s.stack[q].Discover? ==>
          Pushed(g, roots, s.stack[..q], s.stack[q].node))
    && (forall r :: r in roots ==> r in s.visited || Discover(r) in s.stack)
  }

  /** An edge of a listed node leads to an earlier listed node, or closes a cycle. */
  ghost predicate EdgesBack(g: Graph, s: Search) {
    forall a, b :: a in s.results && b in g(a) ==>
      b in s.visited && (Precedes(s.results, b, a) || Reaches(g, b, a))
  }

  ghost predicate SearchInv(g: Graph, roots: seq<int>, s: Search) {
    && Bookkept(s)
    && Waiting(g, roots, s)
    && EdgesBack(g, s)
    && forall n :: n in s.visited ==> FromRoots(g, roots, n)
  }

  lemma BeginSearch(g: Graph, roots: seq<int>, s: Search)
    requires |s.stack| == |roots| && forall i :: 0 <= i < |roots| ==> s.stack[i] == Discover(roots[i])
    requires s.visited == {} && s.results == []
    ensures SearchInv(g, roots, s)
  {
    forall r | r in roots ensures Discover(r) in s.stack {
      var i :| 0 <= i < |roots| && roots[i] == r;
      assert s.stack[i] == Discover(r);
    }
    forall q | 0 <= q < |s.stack| && s.stack[q].Discover? ensures Pushed(g, roots, s.stack[..q], s.stack[q].node) {
      RootPushed(g, roots, s.stack[..q], s.stack[q].node);
    }
  }

  lemma PopAbove(st: seq<Frame>, p: int, c: int)
    requires st != [] && Above(st, p, c) && st[|st| - 1] != Discover(c)
    ensures Above(st[..|st| - 1], p, c)
  {
    var q :| 0 <= q < |st| && p < q && st[q] == Discover(c);
    assert st[..|st| - 1][q] == Discover(c);
  }

  lemma PopKeepsWaiting(g: Graph, roots: seq<int>, s: Search, s': Search)
    requires Waiting(g, roots, s) && s.stack != []
    requires s'.stack == s.stack[..|s.stack| - 1] && s'.visited == s.visited
    requires s.stack[|s.stack| - 1].Discover? ==> s.stack[|s.stack| - 1].node in s.visited
    ensures Waiting(g, roots, s')
  {
    hide Above, Pushed, Reaches;
    var last := |s.stack| - 1;
    forall p, c | 0 <= p < last && s'.stack[p].Finish? && c in g(s'.stack[p].node)
      ensures c in s'.visited || Above(s'.stack, p, c)
    {
      assert s.stack[p] == s'.stack[p];
      if c !in s.visited {
        PopAbove(s.stack, p, c);
      }
    }
    forall p, q | 0 <= p < q < last && s'.stack[p].Finish? && s'.stack[q].Finish?
      ensures s'.stack[p] != s'.stack[q] && Reaches(g, s'.stack[p].node, s'.stack[q].node)
    {
      assert s.stack[p] == s'.stack[p] && s.stack[q] == s'.stack[q];
    }
    forall q | 0 <= q < last && s'.stack[q].Discover? ensures Pushed(g, roots, s'.stack[..q], s'.stack[q].node) {
      assert s'.stack[..q] == s.stack[..q] && s.stack[q] == s'.stack[q];
    }
    forall r | r in roots && r !in s.visited ensures Discover(r) in s'.stack {
      var q :| 0 <= q < |s.stack| && s.stack[q] == Discover(r);
      assert s'.stack[q] == Discover(r);
    }
  }

  lemma PopKeepsOpen(s: Search, s': Search)
    requires s.stack != [] && s'.stack == s.stack[..|s.stack| - 1]
    ensures forall n :: s.Open(n) <==> s'.Open(n) || s.stack[|s.stack| - 1] == Finish(n)
  {
    LastFrame(s.stack);
  }

  lemma SkipVisited(g: Graph, roots: seq<int>, s: Search, s': Search)
    requires SearchInv(g, roots, s) && s.stack != []
    requires s.stack[|s.stack| - 1].Discover? && s.stack[|s.stack| - 1].node in s.visited
    requires s' == s.(stack := s.stack[..|s.stack| - 1])
    ensures SearchInv(g, roots, s')
  {
    hide Waiting, FromRoots, Reaches;
    PopKeepsOpen(s, s');
    PopKeepsWaiting(g, roots, s, s');
  }

  // ---------------------------------------------------------------------
  // Opening a node
  // ---------------------------------------------------------------------

  lemma OpenKeepsBookkept(g: Graph, s: Search, n: int, pushes: seq<Frame>, s': Search)
    requires Bookkept(s) && s.stack != [] && s.stack[|s.stack| - 1] == Discover(n) && n !in s.visited
    requires forall i :: 0 <= i < |pushes| ==> pushes[i].Discover?
    requires s' == Search(s.stack[..|s.stack| - 1] + [Finish(n)] + pushes, s.visited + {n}, s.results)
    ensures Bookkept(s')
  {
    LastFrame(s.stack);
    forall x ensures s'.Open(x) <==> s.Open(x) || x == n {
      var kept := s.stack[..|s.stack| - 1];
      assert Finish(x) in kept <==> Finish(x) in s.stack;
      assert Finish(x) !in pushes;
      assert Finish(n) in [Finish(n)];
    }
  }

  /** A node just opened is reached by all the others that are open. */
  lemma OpenReaches(g: Graph, roots: seq<int>, s: Search, n: int, p: int)
    requires Waiting(g, roots, s) && s.stack != [] && s.stack[|s.stack| - 1] == Discover(n)
    requires 0 <= p < |s.stack| && s.stack[p].Finish?
    ensures Reaches(g, s.stack[p].node, n)
  {
    hide Above, Pushed, Reaches;
    var top := |s.stack| - 1;
    assert Pushed(g, roots, s.stack[..top], n);
    var t := TopGray(g, roots, s.stack[..top], n);
    assert s.stack[..top][p] == s.stack[p];
    assert p <= t;
    assert s.stack[..top][t] == s.stack[t];
    ReachesEdge(g, s.stack[t].node, n);
    if p < t {
      ReachesTransitive(g, s.stack[p].node, s.stack[t].node, n);
    }
  }

  lemma OpenKeepsChain(g: Graph, roots: seq<int>, s: Search, n: int, pushes: seq<Frame>, s': Search)
    requires Bookkept(s) && Waiting(g, roots, s)
    requires s.stack != [] && s.stack[|s.stack| - 1] == Discover(n) && n !in s.visited
    requires Extended(s.stack, s'.stack, |s.stack| - 1, n, pushes)
    requires forall i :: 0 <= i < |pushes| ==> pushes[i].Discover?
    ensures forall p, q :: 0 <= p < q < |s'.stack| && s'.stack[p].Finish? && s'.stack[q].Finish? ==>
      s'.stack[p] != s'.stack[q] && Reaches(g, s'.stack[p].node, s'.stack[q].node)
  {
    hide Above, Pushed, Reaches;
    var top := |s.stack| - 1;
    forall p, q | 0 <= p < q < |s'.stack| && s'.stack[p].Finish? && s'.stack[q].Finish?
      ensures s'.stack[p] != s'.stack[q] && Reaches(g, s'.stack[p].node, s'.stack[q].node)
    {
      assert q <= top && p < top && s'.stack[p] == s.stack[p];
      if q == top {
        OpenReaches(g, roots, s, n, p);
        assert s.stack[p] in s.stack;
        var x := s.stack[p].node;
        assert s.Open(x);
      } else {
        assert s'.stack[q] == s.stack[q];
      }
    }
  }

  lemma OpenKeepsWaiting(g: Graph, roots: seq<int>, s: Search, n: int, pushes: seq<Frame>, s': Search)
    requires Bookkept(s) && Waiting(g, roots, s)
    requires s.stack != [] && s.stack[|s.stack| - 1] == Discover(n) && n !in s.visited
    requires Extended(s.stack, s'.stack, |s.stack| - 1, n, pushes) && s'.visited == s.visited + {n}
    requires forall i :: 0 <= i < |pushes| ==> pushes[i].Discover? && pushes[i].node in g(n)
    requires forall c :: c in g(n) ==> Discover(c) in pushes
    ensures Waiting(g, roots, s')
  {
    hide Above, Pushed, Reaches, Bookkept;
    var top, st := |s.stack| - 1, s'.stack;
    OpenKeepsChain(g, roots, s, n, pushes, s');
    forall p, c | 0 <= p < |st| && st[p].Finish? && c in g(st[p].node) ensures c in s'.visited || Above(st, p, c) {
      if p == top {
        ChildAbove(s.stack, st, top, n, pushes, c);
      } else if c !in s'.visited {
        assert p < top && st[p] == s.stack[p];
        StillAbove(s.stack, st, top, n, pushes, p, c);
      }
    }
    forall q | 0 <= q < |st| && st[q].Discover? ensures Pushed(g, roots, st[..q], st[q].node) {
      if q < top {
        assert st[..q] == s.stack[..q] && st[q] == s.stack[q];
      } else {
        ChildrenPushed(g, roots, st, n, top, q);
      }
    }
    forall r | r in roots && r !in s'.visited ensures Discover(r) in st {
      var q :| 0 <= q < |s.stack| && s.stack[q] == Discover(r);
      assert st[q] == Discover(r);
    }
  }

  lemma OpenFromRoots(g: Graph, roots: seq<int>, s: Search, n: int)
    requires SearchInv(g, roots, s) && s.stack != [] && s.stack[|s.stack| - 1] == Discover(n)
    ensures FromRoots(g, roots, n)
  {
    hide Above, Pushed, Reaches, EdgesBack;
    var top := |s.stack| - 1;
    assert Pushed(g, roots, s.stack[..top], n);
    var t := TopGray(g, roots, s.stack[..top], n);
    if t == -1 {
      ReachesSelf(g, n);
    } else {
      assert s.stack[..top][t] == s.stack[t];
      var x := s.stack[t].node;
      assert Finish(x) in s.stack;
      assert s.Open(x);
      var r :| r in roots && Reaches(g, r, x);
      ReachesEdge(g, x, n);
      ReachesTransitive(g, r, x, n);
    }
  }

  lemma OpenExtends(s: Search, n: int, pushes: seq<Frame>, s': Search)
    requires s.stack != [] && s'.stack == s.stack[..|s.stack| - 1] + [Finish(n)] + pushes
    ensures Extended(s.stack, s'.stack, |s.stack| - 1, n, pushes)
  {
    var top, low := |s.stack| - 1, s.stack[..|s.stack| - 1] + [Finish(n)];
    assert s'.stack == low + pushes && |low| == top + 1;
    assert forall p :: 0 <= p < top ==> s'.stack[p] == low[p] == s.stack[p];
    assert forall i :: 0 <= i < |pushes| ==> s'.stack[i + top + 1] == pushes[i];
  }

  lemma OpenNode(g: Graph, roots: seq<int>, s: Search, n: int, pushes: seq<Frame>, s': Search)
    requires SearchInv(g, roots, s) && s.stack != [] && s.stack[|s.stack| - 1] == Discover(n) && n !in s.visited
    requires forall i :: 0 <= i < |pushes| ==> pushes[i].Discover? && pushes[i].node in g(n)
    requires forall c :: c in g(n) ==> Discover(c) in pushes
    requires s' == Search(s.stack[..|s.stack| - 1] + [Finish(n)] + pushes, s.visited + {n}, s.results)
    ensures SearchInv(g, roots, s')
  {
    hide Waiting, Bookkept, FromRoots, Reaches, Precedes;
    OpenKeepsBookkept(g, s, n, pushes, s');
    OpenExtends(s, n, pushes, s');
    OpenKeepsWaiting(g, roots, s, n, pushes, s');
    OpenFromRoots(g, roots, s, n);
  }

  // ---------------------------------------------------------------------
  // Listing a node
  // ---------------------------------------------------------------------

  /** When a node is listed, each of its edges leads to a listed node or back up the search path. */
  lemma ListedEdges(g: Graph, roots: seq<int>, s: Search, n: int, b: int)
    requires Bookkept(s) && Waiting(g, roots, s) && s.stack != [] && s.stack[|s.stack| - 1] == Finish(n) && b in g(n)
    ensures b in s.visited && (b in s.results || Reaches(g, b, n))
  {
    hide Pushed, Reaches;
    var top := |s.stack| - 1;
    assert !Above(s.stack, top, b);
    if b !in s.results {
      assert s.Open(b);
      var q :| 0 <= q < |s.stack| && s.stack[q] == Finish(b);
      if q == top {
        ReachesSelf(g, b);
      }
    }
  }

  lemma PrecedesGrows(order: seq<int>, n: int, a: int, b: int)
    ensures Precedes(order, a, b) ==> Precedes(order + [n], a, b)
    ensures a in order ==> Precedes(order + [n], a, n)
  {
    var next := order + [n];
    if Precedes(order, a, b) {
      var i, j :| 0 <= i < j < |order| && order[i] == a && order[j] == b;
      assert next[i] == a && next[j] == b;
    }
    if a in order {
      var i :| 0 <= i < |order| && order[i] == a;
      assert next[i] == a && next[|order|] == n;
    }
  }

  lemma ListKeepsEdges(g: Graph, roots: seq<int>, s: Search, n: int, s': Search)
    requires Bookkept(s) && Waiting(g, roots, s) && EdgesBack(g, s)
    requires s.stack != [] && s.stack[|s.stack| - 1] == Finish(n)
    requires s'.visited == s.visited && s'.results == s.results + [n]
    ensures EdgesBack(g, s')
  {
    hide Waiting, Precedes, Reaches, Bookkept;
    forall a, b | a in s'.results && b in g(a)
      ensures b in s'.visited && (Precedes(s'.results, b, a) || Reaches(g, b, a))
    {
      PrecedesGrows(s.results, n, b, a);
      if a !in s.results {
        assert a == n;
        ListedEdges(g, roots, s, n, b);
      }
    }
  }

  lemma ListKeepsBookkept(g: Graph, roots: seq<int>, s: Search, n: int, s': Search)
    requires Bookkept(s) && Waiting(g, roots, s) && s.stack != [] && s.stack[|s.stack| - 1] == Finish(n)
    requires s' == Search(s.stack[..|s.stack| - 1], s.visited, s.results + [n])
    ensures Bookkept(s')
  {
    hide Above, Pushed, Reaches;
    PopKeepsOpen(s, s');
    var top := |s.stack| - 1;
    assert s.Open(n);
    forall q | 0 <= q < top ensures s'.stack[q] != Finish(n) {
      assert s'.stack[q] == s.stack[q];
    }
    assert !s'.Open(n);
  }

  lemma ListNode(g: Graph, roots: seq<int>, s: Search, n: int, s': Search)
    requires SearchInv(g, roots, s) && s.stack != [] && s.stack[|s.stack| - 1] == Finish(n)
    requires s' == Search(s.stack[..|s.stack| - 1], s.visited, s.results + [n])
    ensures SearchInv(g, roots, s')
  {
    hide Waiting, Bookkept, FromRoots, EdgesBack;
    ListKeepsBookkept(g, roots, s, n, s');
    PopKeepsWaiting(g, roots, s, s');
    ListKeepsEdges(g, roots, s, n, s');
  }

  // ---------------------------------------------------------------------
  // The program
  // ---------------------------------------------------------------------

  /** Every edge from a listed node leads to an earlier one. */
  ghost predicate Topological(g: Graph, order: seq<int>) {
    forall a, b :: a in order && b in g(a) ==> Precedes(order, b, a)
  }

  /** No edge that the roots reach lies on a cycle. */
  ghost predicate Acyclic(g: Graph, roots: seq<int>) {
    forall a, b :: FromRoots(g, roots, a) && b in g(a) ==> !Reaches(g, b, a)
  }

  /** Along a path through a topological order, positions only go down. */
  lemma {:induction false} PathGoesDown(g: Graph, order: seq<int>, p: seq<int>, i: nat) returns (j: nat)
    requires Topological(g, order) && Distinct(order) && IsPath(g, p)
    requires i < |order| && order[i] == p[0]
    ensures j <= i && order[j] == p[|p| - 1]
  {
    hide Topological;
    if |p| == 1 {
      j := i;
    } else {
      PathTail(g, p);
      var k := StepDown(g, order, p[0], p[1], i);
      j := PathGoesDown(g, order, p[1..], k);
    }
  }

  lemma PathTail(g: Graph, p: seq<int>)
    requires |p| > 1 && IsPath(g, p)
    ensures IsPath(g, p[1..]) && p[1] in g(p[0])
  {
    assert p[0 + 1] in g(p[0]);
    forall i | 0 <= i < |p| - 2 ensures p[1..][i + 1] in g(p[1..][i]) {
      assert p[(i + 1) + 1] in g(p[i + 1]);
    }
  }

  lemma StepDown(g: Graph, order: seq<int>, a: int, b: int, i: nat) returns (k: nat)
    requires Topological(g, order) && Distinct(order) && i < |order| && order[i] == a && b in g(a)
    ensures k < i && order[k] == b
  {
    assert a in order;
    assert Precedes(order, b, a);
    var j;
    k, j :| 0 <= k < j < |order| && order[k] == b && order[j] == a;
  }

  /** Lists everything that the roots reach; a topological order if and only if there is one. */
  method TopoSort(roots: seq<int>, g: Graph, ghost all: set<int>) returns (results: seq<int>)
    requires Closed(g, all) && forall r :: r in roots ==> r in all
    ensures Distinct(results)
    ensures forall n :: n in results <==> FromRoots(g, roots, n)
    ensures Topological(g, results) <==> Acyclic(g, roots)
  {
    hide Waiting, Bookkept, EdgesBack, FromRoots, Reaches, Precedes, Topological, Acyclic, Closed;
    results := [];
    var visited: set<int> := {};
    var stack := seq(|roots|, i requires 0 <= i < |roots| => Discover(roots[i]));
    ghost var s := Search(stack, visited, results);
    BeginSearch(g, roots, s);
    while stack != []
      invariant s == Search(stack, visited, results) && SearchInv(g, roots, s)
      decreases |all - visited|, |stack|
    {
      var top := |stack| - 1;
      var frame := stack[top];
      var current := frame.node;
      if frame.Discover? {
        stack := stack[..top];
        if current !in visited {
          OpenFromRoots(g, roots, s, current);
          RootsStayIn(g, roots, all, current);
          var pushes := Pushes(g(current), {});
          assert all - (visited + {current}) == (all - visited) - {current};
          visited := visited + {current};
          stack := stack + [Finish(current)] + pushes;
          OpenNode(g, roots, s, current, pushes, Search(stack, visited, results));
        } else {
          SkipVisited(g, roots, s, Search(stack, visited, results));
        }
      } else {
        stack := stack[..top];
        results := results + [current];
        ListNode(g, roots, s, current, Search(stack, visited, results));
      }
      s := Search(stack, visited, results);
    }
    SearchEnds(g, roots, s);
    TopologicalIffAcyclic(g, roots, s);
  }

  lemma SearchEnds(g: Graph, roots: seq<int>, s: Search)
    requires SearchInv(g, roots, s) && s.stack == []
    ensures Distinct(s.results) && forall n :: n in s.results <==> n in s.visited
    ensures forall n :: n in s.results <==> FromRoots(g, roots, n)
  {
    hide Above, Pushed, Reaches, Precedes;
    VisitedIsClosed(g, s);
    forall n | FromRoots(g, roots, n) ensures n in s.results {
      var r :| r in roots && Reaches(g, r, n);
      ReachesStaysInClosed(g, s.visited, r, n);
    }
  }

  lemma VisitedIsClosed(g: Graph, s: Search)
    requires Bookkept(s) && EdgesBack(g, s) && s.stack == []
    ensures Closed(g, s.visited)
  {
    hide Reaches, Precedes;
  }

  lemma TopologicalIffAcyclic(g: Graph, roots: seq<int>, s: Search)
    requires EdgesBack(g, s) && Distinct(s.results)
    requires forall n :: n in s.results <==> FromRoots(g, roots, n)
    ensures Topological(g, s.results) <==> Acyclic(g, roots)
  {
    hide FromRoots, Reaches, Precedes;
    if Topological(g, s.results) {
      forall a, b | FromRoots(g, roots, a) && b in g(a) ensures !Reaches(g, b, a) {
        NoWayBack(g, s.results, a, b);
      }
    }
  }

  lemma NoWayBack(g: Graph, order: seq<int>, a: int, b: int)
    requires Topological(g, order) && Distinct(order) && a in order && b in g(a)
    ensures !Reaches(g, b, a)
  {
    var i :| 0 <= i < |order| && order[i] == a;
    var k := StepDown(g, order, a, b, i);
    forall p | IsPath(g, p) && p[0] == b ensures p[|p| - 1] != a {
      var j := PathGoesDown(g, order, p, k);
    }
  }
}
