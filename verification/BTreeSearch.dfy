/**
  Searching and ordering in the trees of BTreeNodes: where an item is or belongs, and what
  inserting or removing it makes of the items in order.
 */
module BTreeSearch {

  import opened Sorting
  import opened BTreeNodes

  predicate AllBelow(s: seq<int>, x: int) {
    forall i :: 0 <= i < |s| ==> s[i] < x
  }

  predicate AllAbove(s: seq<int>, x: int) {
    forall i :: 0 <= i < |s| ==> s[i] > x
  }

  lemma IncreasingParts(a: seq<int>, b: seq<int>, c: seq<int>)
    requires Increasing(a + b + c)
    ensures Increasing(a) && Increasing(b) && Increasing(c)
  {
    var s := a + b + c;
    assert forall i :: 0 <= i < |a| ==> s[i] == a[i];
    assert forall i :: 0 <= i < |b| ==> s[|a| + i] == b[i];
    assert forall i :: 0 <= i < |c| ==> s[|a| + |b| + i] == c[i];
  }

  /** What bisect_left returns for an increasing list. */
  predicate IsPosition(s: seq<int>, x: int, i: nat) {
    i <= |s| && AllBelow(s[..i], x) && forall j :: i <= j < |s| ==> s[j] >= x
  }

  method BisectLeft(s: seq<int>, x: int) returns (low: nat)
    requires Increasing(s)
    ensures IsPosition(s, x, low)
  {
    low := 0;
    var high := |s|;
    while low < high
      invariant low <= high <= |s|
      invariant AllBelow(s[..low], x) && forall j :: high <= j < |s| ==> s[j] >= x
    {
      var mid := (low + high) / 2;
      if s[mid] < x {
        low := mid + 1;
      } else {
        high := mid;
      }
    }
  }

  lemma {:induction false} ItemBefore(t: Tree, i: nat, j: nat)
    requires IsBranch(t) && i < j <= |t.contents|
    ensures t.contents[i] in Before(t, j)
  {
    if i < j - 1 {
      ItemBefore(t, i, j - 1);
    }
  }

  lemma ContentsIncreasing(t: Tree)
    requires Shaped(t) && Increasing(Items(t))
    ensures Increasing(t.contents)
  {
    if t.children != [] {
      forall i, j | 0 <= i < j < |t.contents| ensures t.contents[i] < t.contents[j] {
        ItemBefore(t, i, j);
        ItemsAt(t, j);
        var k :| 0 <= k < |Before(t, j)| && Before(t, j)[k] == t.contents[i];
        var n := |Before(t, j)| + |Items(t.children[j])|;
        assert Items(t)[k] == t.contents[i] && Items(t)[n] == t.contents[j];
      }
    }
  }

  /** Below a branch the search goes on between the items around its position. */
  lemma {:induction false} ChildBounds(t: Tree, i: nat, x: int)
    requires IsBranch(t) && Increasing(Items(t)) && IsPosition(t.contents, x, i)
    requires i < |t.contents| ==> t.contents[i] != x
    ensures i < |t.children| && Items(t) == Before(t, i) + Items(t.children[i]) + After(t, i)
    ensures AllBelow(Before(t, i), x) && AllAbove(After(t, i), x) && Increasing(Items(t.children[i]))
  {
    ItemsAt(t, i);
    IncreasingParts(Before(t, i), Items(t.children[i]), After(t, i));
    if i > 0 {
      var b := Before(t, i);
      assert b[|b| - 1] == t.contents[i - 1] == t.contents[..i][i - 1];
    }
    if i < |t.contents| {
      assert After(t, i)[0] == t.contents[i];
    }
  }

  /** A path below other nodes. */
  predicate GoodChain(path: Path, h: nat, order: nat) {
    path == [] || (
      var f := path[|path| - 1];
      && IsFrame(f)
      && order / 2 <= |f.node.contents| <= order
      && (forall i :: 0 <= i < |f.node.children| && i != f.index ==> Good(f.node.children[i], h, order))
      && GoodChain(path[..|path| - 1], h + 1, order))
  }

  lemma {:induction false} ChainExtends(path: Path, chain: Path, h: nat, order: nat)
    requires path != [] && GoodPath(path, h + |chain|, order) && GoodChain(chain, h, order)
    ensures GoodPath(path + chain, h, order)
  {
    hide Good;
    if chain == [] {
      assert path + chain == path;
    } else {
      var n := |chain| - 1;
      ChainExtends(path, chain[..n], h + 1, order);
      assert (path + chain)[..|path| + n] == path + chain[..n];
    }
  }

  lemma {:induction false} ChainIsPath(chain: Path, h: nat, order: nat)
    requires GoodChain(chain, h, order)
    ensures IsPath(chain)
  {
    hide Good;
    if chain != [] {
      ChainIsPath(chain[..|chain| - 1], h + 1, order);
      assert forall i :: 0 <= i < |chain| - 1 ==> chain[..|chain| - 1][i] == chain[i];
    }
  }

  lemma PathJoins(path: Path, chain: Path)
    requires IsPath(path) && IsPath(chain)
    ensures IsPath(path + chain)
    ensures chain == [] || IsPath(chain[..|chain| - 1])
    ensures chain == [] || (path + chain)[..|path + chain| - 1] == path + chain[..|chain| - 1]
  {}

  lemma {:induction false} LeftsOf(path: Path, chain: Path)
    requires IsPath(path) && IsPath(chain) && IsPath(path + chain)
    ensures LeftOf(path + chain) == LeftOf(path) + LeftOf(chain)
  {
    hide Before;
    PathJoins(path, chain);
    if chain == [] {
      assert path + chain == path;
    } else {
      hide IsPath;
      var up := chain[..|chain| - 1];
      PathJoins(path, up);
      LeftsOf(path, up);
    }
  }

  lemma {:induction false} RightsOf(path: Path, chain: Path)
    requires IsPath(path) && IsPath(chain) && IsPath(path + chain)
    ensures RightOf(path + chain) == RightOf(chain) + RightOf(path)
  {
    hide After;
    PathJoins(path, chain);
    if chain == [] {
      assert path + chain == path;
    } else {
      hide IsPath;
      var up := chain[..|chain| - 1];
      PathJoins(path, up);
      RightsOf(path, up);
    }
  }

  lemma SidesOf(path: Path, chain: Path)
    requires IsPath(path) && IsPath(chain)
    ensures IsPath(path + chain)
    ensures LeftOf(path + chain) == LeftOf(path) + LeftOf(chain)
    ensures RightOf(path + chain) == RightOf(chain) + RightOf(path)
  {
    PathJoins(path, chain);
    LeftsOf(path, chain);
    RightsOf(path, chain);
  }

  lemma {:induction false} ChainStart(h: nat, order: nat)
    ensures GoodChain([], h, order) && IsPath([]) && LeftOf([]) == [] && RightOf([]) == []
  {}

  lemma {:induction false} NoChildren(t: Tree, h: nat, order: nat)
    requires Good(t, h, order) && t.children == []
    ensures h == 0
  {}

  lemma FirstAndLast(t: Tree, h: nat, order: nat)
    requires Good(t, h, order) && t.children != []
    ensures h >= 1 && IsBranch(t)
    ensures Items(t) == Items(t.children[0]) + After(t, 0) && Before(t, 0) == []
    ensures Items(t) == Before(t, |t.contents|) + Items(t.children[|t.contents|]) && After(t, |t.contents|) == []
    ensures Good(t.children[0], h - 1, order) && Good(t.children[|t.contents|], h - 1, order)
  {
    ItemsAt(t, 0);
    ItemsAt(t, |t.contents|);
  }

  lemma {:induction false} ChainLonger(chain: Path, f: Frame, h: nat, order: nat)
    requires GoodChain(chain, h + 1, order) && IsPath(chain) && Good(f.node, h + 1, order)
      && f.index < |f.node.children|
    ensures IsFrame(f) && GoodChain(chain + [f], h, order) && IsPath(chain + [f])
    ensures LeftOf(chain + [f]) == LeftOf(chain) + Before(f.node, f.index)
    ensures RightOf(chain + [f]) == After(f.node, f.index) + RightOf(chain)
  {
    assert (chain + [f])[..|chain|] == chain;
  }

  function Cut(s: seq<int>, i: nat): seq<int>
    requires i < |s|
  {
    s[..i] + s[i + 1..]
  }

  /** The items before and after data item `i` of a node. */
  function LeftPart(t: Tree, i: nat): seq<int>
    requires Shaped(t) && i < |t.contents|
  {
    if t.children == [] then t.contents[..i] else Before(t, i) + Items(t.children[i])
  }

  function RightPart(t: Tree, i: nat): seq<int>
    requires Shaped(t) && i < |t.contents|
  {
    if t.children == [] then t.contents[i + 1..] else Items(t.children[i + 1]) + After(t, i + 1)
  }

  lemma PartsOf(t: Tree, i: nat)
    requires Shaped(t) && i < |t.contents|
    ensures Items(t) == LeftPart(t, i) + [t.contents[i]] + RightPart(t, i)
  {
    hide Items, Before, After;
    if t.children == [] {
      ItemsOfLeaf(t);
    } else {
      ItemsAtTwo(t, i);
    }
  }

  /** The path through `t` and down a chain below its child `i`. */
  lemma {:induction false} Through(path: Path, t: Tree, i: nat, chain: Path, order: nat)
    requires IsPath(path) && GoodPath(path, |chain| + 1, order) && IsPath(chain) && GoodChain(chain, 0, order)
    requires i < |t.children| && Kids(t, |chain| + 1, order)
    requires (if path == [] then 1 else order / 2) <= |t.contents| <= order
    ensures IsBranch(t) && GoodPath(path + [Frame(t, i)] + chain, 0, order) && IsPath(path + [Frame(t, i)] + chain)
    ensures LeftOf(path + [Frame(t, i)] + chain) == LeftOf(path) + Before(t, i) + LeftOf(chain)
    ensures RightOf(path + [Frame(t, i)] + chain) == RightOf(chain) + After(t, i) + RightOf(path)
  {
    hide Good, Before, After, GoodChain;
    var upper := path + [Frame(t, i)];
    assert upper[..|path|] == path;
    assert forall j :: 0 <= j < |path| ==> upper[j] == path[j];
    ChainExtends(upper, chain, 0, order);
    SidesOf(upper, chain);
  }

  lemma {:induction false} KidsRenamed(t: Tree, k: seq<int>, h: nat, order: nat)
    requires Kids(t, h, order) && |k| == |t.contents|
    ensures Kids(t.(contents := k), h, order)
  {}

  lemma LeftRenamed(t: Tree, i: nat, k: int)
    requires IsBranch(t) && i < |t.contents|
    ensures var u := t.(contents := t.contents[i := k]);
      && Before(u, i + 1) == Before(t, i) + Items(t.children[i]) + [k]
      && After(u, i + 1) == After(t, i + 1)
      && Before(u, i) == Before(t, i) && After(u, i) == [k] + Items(t.children[i + 1]) + After(t, i + 1)
  {
    var u := t.(contents := t.contents[i := k]);
    BeforeSame(t, u, i);
    AfterSame(t, i + 1, u, i + 1);
  }

  lemma NextRegrouped(left: seq<int>, b: seq<int>, c: seq<int>, leaf: seq<int>, r: seq<int>, a: seq<int>,
      right: seq<int>)
    requires |leaf| > 0
    ensures (left + (b + c + [leaf[0]]) + []) + Cut(leaf, 0) + (r + a + right)
      == left + ((b + c) + ((leaf + r) + a)) + right
  {
    assert [leaf[0]] + Cut(leaf, 0) == leaf;
  }

  lemma PreviousRegrouped(left: seq<int>, b: seq<int>, l: seq<int>, leaf: seq<int>, d: seq<int>, a: seq<int>,
      right: seq<int>)
    requires |leaf| > 0
    ensures var n := |leaf| - 1;
      (left + b + l) + Cut(leaf, n) + ([] + ([leaf[n]] + d + a) + right) == left + ((b + (l + leaf)) + (d + a)) + right
  {
    assert Cut(leaf, |leaf| - 1) + [leaf[|leaf| - 1]] == leaf;
  }

  lemma {:induction false} LeafItems(t: Tree, order: nat)
    requires Good(t, 0, order)
    ensures Items(t) == t.contents
  {}

  /** Where the search for `item` stands: everything left of the path is smaller, everything right of it larger. */
  predicate Searching(root: Tree, path: Path, node: Tree, item: int, h: nat, order: nat) {
    && IsPath(path) && GoodPath(path, h, order) && Plug(path, node) == root
    && (if path == [] then GoodRoot(node, h, order) else Good(node, h, order))
    && AllBelow(LeftOf(path), item) && AllAbove(RightOf(path), item)
    && Increasing(Items(node))
  }

  lemma {:induction false} SearchKids(root: Tree, path: Path, node: Tree, item: int, h: nat, order: nat)
    requires Searching(root, path, node, item, h, order)
    ensures Shaped(node) && Kids(node, h, order) && |node.contents| <= order
    ensures h >= 1 ==> IsBranch(node) && forall i :: 0 <= i < |node.children| ==> Good(node.children[i], h - 1, order)
    ensures h >= 1 && order >= 2 ==> (if path == [] then 1 else order / 2) <= |node.contents|
    ensures h == 0 <==> node.children == []
  {
    hide Items, GoodPath, LeftOf, RightOf;
    assert Kids(node, h, order);
    KidsShaped(node, h, order);
  }

  lemma {:induction false} KidsShaped(t: Tree, h: nat, order: nat)
    requires Kids(t, h, order)
    ensures if h == 0 then t.children == []
      else IsBranch(t) && forall i :: 0 <= i < |t.children| ==> Good(t.children[i], h - 1, order)
  {
    hide Good;
  }

  /** One frame longer, the path still leads to the same tree. */
  lemma PathDown(path: Path, node: Tree, i: nat, h: nat, order: nat)
    requires IsPath(path) && GoodPath(path, h, order) && h >= 1 && IsBranch(node) && i < |node.children|
    requires (if path == [] then 1 else order / 2) <= |node.contents| <= order
    requires forall j :: 0 <= j < |node.children| ==> Good(node.children[j], h - 1, order)
    ensures var longer := path + [Frame(node, i)];
      && IsPath(longer) && GoodPath(longer, h - 1, order)
      && Plug(longer, node.children[i]) == Plug(path, node)
      && LeftOf(longer) == LeftOf(path) + Before(node, i)
      && RightOf(longer) == After(node, i) + RightOf(path)
  {
    hide Good, Before, After;
    var f := Frame(node, i);
    var longer := path + [f];
    assert longer[..|path|] == path;
    assert forall j :: 0 <= j < |path| ==> longer[j] == path[j];
    assert node.children[i := node.children[i]] == node.children;
    assert Put(f, node.children[i]) == node;
  }

  lemma SearchDown(root: Tree, path: Path, node: Tree, item: int, i: nat, h: nat, order: nat)
    requires order >= 2 && Searching(root, path, node, item, h, order) && h >= 1
    requires IsPosition(node.contents, item, i) && (i < |node.contents| ==> node.contents[i] != item)
    ensures i < |node.children| && Searching(root, path + [Frame(node, i)], node.children[i], item, h - 1, order)
  {
    hide Before, After, Items, Good, GoodRoot, IsPosition, GoodPath, Plug, LeftOf, RightOf, Kids;
    SearchKids(root, path, node, item, h, order);
    ChildBounds(node, i, item);
    PathDown(path, node, i, h, order);
  }

  lemma PositionFits(s: seq<int>, x: int, i: nat)
    requires IsPosition(s, x, i)
    ensures i <= |s|
  {}

  lemma SearchStart(root: Tree, item: int, height: nat, order: nat)
    requires GoodRoot(root, height, order) && Increasing(Items(root))
    ensures Searching(root, [], root, item, height, order)
  {}

  lemma SearchIncreasing(root: Tree, path: Path, node: Tree, item: int, h: nat, order: nat)
    requires Searching(root, path, node, item, h, order)
    ensures Increasing(node.contents)
  {
    SearchKids(root, path, node, item, h, order);
    ContentsIncreasing(node);
  }

  /** The items of the whole tree around the node where the search ended. */
  lemma {:induction false} SearchItems(root: Tree, path: Path, node: Tree, item: int, index: nat, h: nat, order: nat)
    requires Searching(root, path, node, item, h, order) && Shaped(node) && IsPosition(node.contents, item, index)
    requires node.children == [] || (index < |node.contents| && node.contents[index] == item)
    ensures Items(root) == LeftOf(path) + Items(node) + RightOf(path)
    ensures item in Items(root) <==> index < |node.contents| && node.contents[index] == item
  {
    hide LeftOf, RightOf, GoodPath, Plug, Good, GoodRoot, Items, LeftPart, RightPart;
    ItemsPlug(path, node);
    if index < |node.contents| && node.contents[index] == item {
      PartsOf(node, index);
      InMiddle(LeftOf(path), LeftPart(node, index), item, RightPart(node, index), RightOf(path));
    } else {
      LeafOnly(node, 0, 0);
      NotThere(LeftOf(path), node.contents, index, item, RightOf(path));
    }
  }

  lemma InMiddle(a: seq<int>, b: seq<int>, x: int, c: seq<int>, d: seq<int>)
    ensures x in a + (b + [x] + c) + d
  {}

  lemma NotThere(left: seq<int>, s: seq<int>, i: nat, x: int, right: seq<int>)
    requires AllBelow(left, x) && AllAbove(right, x) && IsPosition(s, x, i) && (i < |s| ==> s[i] != x) && Increasing(s)
    ensures x !in left + s + right
  {
    assert forall j :: 0 <= j < i ==> s[j] == s[..i][j];
  }

  /** A new item in its place. */
  lemma Inserted(left: seq<int>, s: seq<int>, i: nat, x: int, right: seq<int>)
    requires Increasing(left + s + right) && AllBelow(left, x) && AllAbove(right, x)
    requires IsPosition(s, x, i) && (i < |s| ==> s[i] != x)
    ensures var t := s[..i] + [x] + s[i..];
      && Increasing(left + t + right)
      && (forall y: int :: y in left + t + right <==> y in left + s + right || y == x)
  {
    var t := s[..i] + [x] + s[i..];
    var a, b := left + s[..i], s[i..] + right;
    assert left + s + right == a + b;
    assert left + t + right == a + [x] + b;
    IncreasingParts(left, s, right);
    forall j | 0 <= j < |b| ensures b[j] > x {
      if j < |s| - i {
        assert b[j] == s[i + j] >= s[i];
      } else {
        assert b[j] == right[j - (|s| - i)];
      }
    }
    forall j | 0 <= j < |a| ensures a[j] < x {
      if j < |left| {
        assert a[j] == left[j];
      } else {
        assert a[j] == s[..i][j - |left|];
      }
    }
    Between(a, x, b);
  }

  lemma Between(a: seq<int>, x: int, b: seq<int>)
    requires Increasing(a + b) && AllBelow(a, x) && AllAbove(b, x)
    ensures Increasing(a + [x] + b) && forall y: int :: y in a + [x] + b <==> y in a + b || y == x
  {
    var s := a + [x] + b;
    forall i, j | 0 <= i < j < |s| ensures s[i] < s[j] {
      if j < |a| {
        assert (a + b)[i] < (a + b)[j];
      } else if i > |a| {
        assert (a + b)[i - 1] < (a + b)[j - 1];
      } else if i < |a| && j > |a| {
        assert (a + b)[i] < (a + b)[j - 1];
      }
    }
  }

  /** An item taken out. */
  lemma TakenOut(a: seq<int>, x: int, b: seq<int>)
    requires Increasing(a + [x] + b)
    ensures Increasing(a + b) && forall y: int :: y in a + b <==> y in a + [x] + b && y != x
  {
    var s := a + [x] + b;
    var t := a + b;
    forall i, j | 0 <= i < j < |t| ensures t[i] < t[j] {
      assert t[i] == s[if i < |a| then i else i + 1] && t[j] == s[if j < |a| then j else j + 1];
    }
    forall y | y in t ensures y in s && y != x {
      var i :| 0 <= i < |t| && t[i] == y;
      assert s[if i < |a| then i else i + 1] == y && s[|a|] == x;
    }
    forall y | y in s && y != x ensures y in t {
      var i :| 0 <= i < |s| && s[i] == y;
      assert t[if i < |a| then i else i - 1] == y;
    }
  }

  function Members(s: seq<int>): set<int> {
    set x | x in s
  }

  lemma SameButOne(s: seq<int>, t: seq<int>, x: int)
    requires forall y: int :: y in t <==> y in s && y != x
    ensures Members(t) == Members(s) - {x}
  {
    assert forall y: int :: y in Members(t) <==> y in Members(s) - {x};
  }

  lemma SameAndOne(s: seq<int>, t: seq<int>, x: int)
    requires forall y: int :: y in t <==> y in s || y == x
    ensures Members(t) == Members(s) + {x}
  {
    assert forall y: int :: y in Members(t) <==> y in Members(s) + {x};
  }

  lemma {:induction false} SearchFacts(root: Tree, path: Path, node: Tree, item: int, h: nat, order: nat)
    requires order >= 2 && Searching(root, path, node, item, h, order)
    ensures IsPath(path) && GoodPath(path, h, order)
    ensures AllBelow(LeftOf(path), item) && AllAbove(RightOf(path), item)
    ensures Kids(node, h, order) && |node.contents| <= order && (path != [] ==> order / 2 <= |node.contents|)
    ensures h >= 1 ==> |node.contents| >= 1
    ensures node.children == [] ==> h == 0 && Items(node) == node.contents
    ensures node.children != [] ==> h >= 1
  {
    hide GoodPath, LeftOf, RightOf;
    SearchKids(root, path, node, item, h, order);
  }

  lemma {:induction false} LeafOnly(t: Tree, h: nat, order: nat)
    requires t.children == [] && h == 0
    ensures Kids(t, h, order) && Items(t) == t.contents
  {}

  lemma {:induction false} LeafIsGood(path: Path, t: Tree, h: nat, order: nat)
    requires Kids(t, h, order) && h == 0 && |t.contents| <= order && (path != [] ==> order / 2 <= |t.contents|)
    ensures if path == [] then GoodRoot(t, h, order) else Good(t, h, order)
  {}
}
