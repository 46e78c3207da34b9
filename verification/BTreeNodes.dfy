/**
  The nodes of multithread/btree/btree.py, and the trees that they form as values: items in
  order, shape, and what moving items between nodes keeps.
 */
module BTreeNodes {

  /** A node object, leaf or branch. */
  class BNode {
    var contents: seq<int>
    var children: seq<BNode>

    constructor (contents: seq<int>, children: seq<BNode>)
      ensures this.contents == contents && this.children == children
    {
      this.contents, this.children := contents, children;
    }
  }

  /** What hangs below a node object: its lists, with the trees of the children. */
  datatype Tree = Tree(obj: BNode, contents: seq<int>, children: seq<Tree>)

  /** A leaf, or a branch with one child more than data items. */
  predicate Shaped(t: Tree) {
    t.children == [] || |t.children| == |t.contents| + 1
  }

  predicate IsBranch(t: Tree) {
    |t.children| == |t.contents| + 1
  }

  // ---------------------------------------------------------------------
  // Items in order
  // ---------------------------------------------------------------------

  /** What iterating over a node yields. */
  function Items(t: Tree): seq<int>
    decreases t, 1, 0
  {
    if IsBranch(t) then Before(t, |t.contents|) + Items(t.children[|t.contents|]) else t.contents
  }

  /** The items that come before child `i`. */
  function Before(t: Tree, i: nat): seq<int>
    requires IsBranch(t) && i <= |t.contents|
    decreases t, 0, i
  {
    if i == 0 then [] else Before(t, i - 1) + Items(t.children[i - 1]) + [t.contents[i - 1]]
  }

  /** The items that come after child `i`. */
  function After(t: Tree, i: nat): seq<int>
    requires IsBranch(t) && i <= |t.contents|
    decreases t, 0, |t.contents| - i
  {
    if i == |t.contents| then [] else [t.contents[i]] + Items(t.children[i + 1]) + After(t, i + 1)
  }

  lemma {:induction false} ItemsAt(t: Tree, i: nat)
    requires IsBranch(t) && i <= |t.contents|
    ensures Items(t) == Before(t, i) + Items(t.children[i]) + After(t, i)
    decreases |t.contents| - i
  {
    if i < |t.contents| {
      ItemsAt(t, i + 1);
    }
  }

  lemma {:induction false} BeforeSame(t: Tree, u: Tree, i: nat)
    requires IsBranch(t) && IsBranch(u) && i <= |t.contents| && i <= |u.contents|
    requires t.contents[..i] == u.contents[..i] && t.children[..i] == u.children[..i]
    ensures Before(t, i) == Before(u, i)
  {
    if i > 0 {
      assert t.contents[..i - 1] == t.contents[..i][..i - 1] == u.contents[..i - 1];
      assert t.children[..i - 1] == t.children[..i][..i - 1] == u.children[..i - 1];
      BeforeSame(t, u, i - 1);
      assert t.contents[..i][i - 1] == u.contents[..i][i - 1];
      assert t.children[..i][i - 1] == u.children[..i][i - 1];
    }
  }

  lemma {:induction false} AfterSame(t: Tree, i: nat, u: Tree, j: nat)
    requires IsBranch(t) && IsBranch(u) && i <= |t.contents| && j <= |u.contents|
    requires t.contents[i..] == u.contents[j..] && t.children[i + 1..] == u.children[j + 1..]
    ensures After(t, i) == After(u, j)
    decreases |t.contents| - i
  {
    assert |t.contents[i..]| == |u.contents[j..]|;
    if i < |t.contents| {
      assert t.contents[i] == t.contents[i..][0] == u.contents[j];
      assert t.children[i + 1] == t.children[i + 1..][0] == u.children[j + 1];
      assert t.contents[i + 1..] == t.contents[i..][1..] == u.contents[j + 1..];
      assert t.children[i + 2..] == t.children[i + 1..][1..] == u.children[j + 2..];
      AfterSame(t, i + 1, u, j + 1);
    }
  }

  /** Two nodes of a kind with a data item between them, as one. */
  function Join(a: Tree, k: int, b: Tree): Tree {
    Tree(a.obj, a.contents + [k] + b.contents, a.children + b.children)
  }

  predicate Alike(a: Tree, b: Tree) {
    (a.children == [] && b.children == []) || (IsBranch(a) && IsBranch(b))
  }

  lemma ItemsOfLeaf(t: Tree)
    requires t.children == []
    ensures Items(t) == t.contents
  {}

  lemma BranchEnds(t: Tree)
    requires IsBranch(t)
    ensures Before(t, 0) == [] && After(t, |t.contents|) == []
  {}

  lemma {:induction false} ItemsJoin(a: Tree, k: int, b: Tree)
    requires Alike(a, b)
    ensures Items(Join(a, k, b)) == Items(a) + [k] + Items(b)
  {
    hide Items, Before, After;
    var t, i := Join(a, k, b), |a.contents|;
    if a.children == [] {
      ItemsOfLeaf(a);
      ItemsOfLeaf(b);
      ItemsOfLeaf(t);
    } else {
      ItemsAtTwo(t, i);
      ItemsAt(a, i);
      ItemsAt(b, 0);
      BranchEnds(a);
      BranchEnds(b);
      BeforeSame(a, t, i);
      AfterSame(t, i + 1, b, 0);
    }
  }

  /** Around two neighbouring children. */
  lemma ItemsAtTwo(t: Tree, i: nat)
    requires IsBranch(t) && i < |t.contents|
    ensures Items(t)
      == Before(t, i) + (Items(t.children[i]) + [t.contents[i]] + Items(t.children[i + 1])) + After(t, i + 1)
  {
    ItemsAt(t, i);
  }

  /** Items moved between two neighbours and the item between them. */
  function Exchange(t: Tree, i: nat, a: Tree, k: int, b: Tree): Tree
    requires IsBranch(t) && i < |t.contents|
  {
    Tree(t.obj, t.contents[i := k], t.children[i := a][i + 1 := b])
  }

  lemma {:induction false} ItemsExchange(t: Tree, i: nat, a: Tree, k: int, b: Tree)
    requires IsBranch(t) && i < |t.contents|
    requires Items(a) + [k] + Items(b) == Items(t.children[i]) + [t.contents[i]] + Items(t.children[i + 1])
    ensures Items(Exchange(t, i, a, k, b)) == Items(t)
  {
    var u := Exchange(t, i, a, k, b);
    ItemsAtTwo(t, i);
    ItemsAtTwo(u, i);
    BeforeSame(t, u, i);
    AfterSame(t, i + 1, u, i + 1);
  }

  /** Two neighbours and the item between them replaced by one child. */
  function Consolidated(t: Tree, i: nat, c: Tree): Tree
    requires IsBranch(t) && i < |t.contents|
  {
    Tree(t.obj, t.contents[..i] + t.contents[i + 1..], t.children[..i] + [c] + t.children[i + 2..])
  }

  lemma {:induction false} ItemsConsolidated(t: Tree, i: nat, c: Tree)
    requires IsBranch(t) && i < |t.contents|
    requires Items(c) == Items(t.children[i]) + [t.contents[i]] + Items(t.children[i + 1])
    ensures Items(Consolidated(t, i, c)) == Items(t)
  {
    var u := Consolidated(t, i, c);
    ItemsAtTwo(t, i);
    ItemsAt(u, i);
    BeforeSame(t, u, i);
    AfterSame(t, i + 1, u, i);
  }

  /** A child replaced by two with an item between them. */
  function Parted(t: Tree, i: nat, a: Tree, k: int, b: Tree): Tree
    requires IsBranch(t) && i <= |t.contents|
  {
    Tree(t.obj, t.contents[..i] + [k] + t.contents[i..], t.children[..i] + [a, b] + t.children[i + 1..])
  }

  lemma {:induction false} ItemsParted(t: Tree, i: nat, a: Tree, k: int, b: Tree)
    requires IsBranch(t) && i <= |t.contents| && Items(t.children[i]) == Items(a) + [k] + Items(b)
    ensures Items(Parted(t, i, a, k, b)) == Items(t)
  {
    var u := Parted(t, i, a, k, b);
    ItemsAt(t, i);
    ItemsAtTwo(u, i);
    BeforeSame(t, u, i);
    AfterSame(t, i, u, i + 1);
  }

  // ---------------------------------------------------------------------
  // Shape
  // ---------------------------------------------------------------------

  /** All leaves below are at depth `h`, and all nodes below have between order/2 and order items. */
  predicate Kids(t: Tree, h: nat, order: nat)
    decreases h, 0
  {
    if h == 0 then t.children == []
    else IsBranch(t) && forall i :: 0 <= i < |t.children| ==> Good(t.children[i], h - 1, order)
  }

  predicate Good(t: Tree, h: nat, order: nat)
    decreases h, 1
  {
    order / 2 <= |t.contents| <= order && Kids(t, h, order)
  }

  /** The root may have fewer items, but a branch at least one. */
  predicate GoodRoot(t: Tree, h: nat, order: nat) {
    |t.contents| <= order && Kids(t, h, order) && (h > 0 ==> |t.contents| >= 1)
  }

  lemma {:induction false} KidsJoin(a: Tree, k: int, b: Tree, h: nat, order: nat)
    requires Kids(a, h, order) && Kids(b, h, order)
    ensures Alike(a, b) && Kids(Join(a, k, b), h, order)
  {}

  lemma {:induction false} KidsPart(a: Tree, k: int, b: Tree, h: nat, order: nat)
    requires Alike(a, b) && Kids(Join(a, k, b), h, order)
    ensures Kids(a, h, order) && Kids(b, h, order)
  {
    if h > 0 {
      var t := Join(a, k, b);
      forall i | 0 <= i < |a.children| ensures Good(a.children[i], h - 1, order) {
        assert t.children[i] == a.children[i];
      }
      forall i | 0 <= i < |b.children| ensures Good(b.children[i], h - 1, order) {
        assert t.children[|a.children| + i] == b.children[i];
      }
    }
  }

  // ---------------------------------------------------------------------
  // Paths from the root
  // ---------------------------------------------------------------------

  /** An ancestor and the index of the child below which the path goes on. */
  datatype Frame = Frame(node: Tree, index: nat)

  type Path = seq<Frame>

  /** The parent with a new child in the path's place. */
  function Put(f: Frame, t: Tree): Tree
    requires f.index < |f.node.children|
  {
    f.node.(children := f.node.children[f.index := t])
  }

  predicate IsFrame(f: Frame) {
    IsBranch(f.node) && f.index < |f.node.children|
  }

  predicate IsPath(path: Path) {
    forall i :: 0 <= i < |path| ==> IsFrame(path[i])
  }

  /** The whole tree, when the node at the end of the path is `t`. */
  function Plug(path: Path, t: Tree): Tree
    requires IsPath(path)
  {
    if path == [] then t else Plug(path[..|path| - 1], Put(path[|path| - 1], t))
  }

  function LeftOf(path: Path): seq<int>
    requires IsPath(path)
  {
    if path == [] then [] else
      var f := path[|path| - 1];
      LeftOf(path[..|path| - 1]) + Before(f.node, f.index)
  }

  function RightOf(path: Path): seq<int>
    requires IsPath(path)
  {
    if path == [] then [] else
      var f := path[|path| - 1];
      After(f.node, f.index) + RightOf(path[..|path| - 1])
  }

  lemma ItemsPut(f: Frame, t: Tree)
    requires IsFrame(f)
    ensures IsBranch(Put(f, t)) && Items(Put(f, t)) == Before(f.node, f.index) + Items(t) + After(f.node, f.index)
  {
    var u := Put(f, t);
    ItemsAt(u, f.index);
    BeforeSame(f.node, u, f.index);
    AfterSame(f.node, f.index, u, f.index);
  }

  lemma {:induction false} ItemsPlug(path: Path, t: Tree)
    requires IsPath(path)
    ensures Items(Plug(path, t)) == LeftOf(path) + Items(t) + RightOf(path)
  {
    hide Items, Before, After, Put;
    if path != [] {
      var f := path[|path| - 1];
      ItemsPut(f, t);
      ItemsPlug(path[..|path| - 1], Put(f, t));
    }
  }

  /** The ancestors and the subtrees beside the path are as they should be; the path ends at height `h`. */
  predicate GoodPath(path: Path, h: nat, order: nat) {
    path == [] || (
      var f := path[|path| - 1];
      && IsFrame(f)
      && (if |path| == 1 then 1 else order / 2) <= |f.node.contents| <= order
      && (forall i :: 0 <= i < |f.node.children| && i != f.index ==> Good(f.node.children[i], h, order))
      && GoodPath(path[..|path| - 1], h + 1, order))
  }

  lemma {:induction false} GoodPathIsPath(path: Path, h: nat, order: nat)
    requires GoodPath(path, h, order)
    ensures IsPath(path)
  {
    if path != [] {
      GoodPathIsPath(path[..|path| - 1], h + 1, order);
      assert forall i :: 0 <= i < |path| - 1 ==> path[..|path| - 1][i] == path[i];
    }
  }

  lemma PutIsGood(path: Path, t: Tree, h: nat, order: nat)
    requires path != [] && GoodPath(path, h, order) && Good(t, h, order)
    ensures var u := Put(path[|path| - 1], t); Kids(u, h + 1, order) && |u.contents| == |path[|path| - 1].node.contents|
  {
    hide Good;
  }

  /** Plugging in a node of the right shape gives a tree of the right shape. */
  lemma {:induction false} PlugIsGood(path: Path, t: Tree, h: nat, order: nat)
    requires GoodPath(path, h, order) && IsPath(path)
    requires if path == [] then GoodRoot(t, h, order) else Good(t, h, order)
    ensures GoodRoot(Plug(path, t), h + |path|, order)
  {
    if path != [] {
      PutIsGood(path, t, h, order);
      PlugIsGood(path[..|path| - 1], Put(path[|path| - 1], t), h + 1, order);
    }
  }

  // ---------------------------------------------------------------------
  // A changed parent in the place of the path's last frame
  // ---------------------------------------------------------------------

  lemma {:induction false} SizedIsGood(t: Tree, h: nat, order: nat, top: bool)
    requires Kids(t, h, order) && (if top then 1 else order / 2) <= |t.contents| <= order
    ensures if top then GoodRoot(t, h, order) else Good(t, h, order)
  {}

  lemma {:induction false} GoodIs(t: Tree, h: nat, order: nat)
    requires Good(t, h, order)
    ensures Kids(t, h, order) && order / 2 <= |t.contents| <= order
  {}

  lemma {:induction false} IsGood(t: Tree, h: nat, order: nat)
    requires Kids(t, h, order) && order / 2 <= |t.contents| <= order
    ensures Good(t, h, order)
  {}

  /** The end of a path as the parent of `t`, with its shape. */
  lemma ParentOf(path: Path, t: Tree, h: nat, order: nat)
    requires path != [] && IsPath(path) && GoodPath(path, h, order)
    ensures var f := path[|path| - 1];
      && IsFrame(f) && IsBranch(Put(f, t)) && Put(f, t).children[f.index] == t
      && Put(f, t).contents == f.node.contents
      && GoodPath(path[..|path| - 1], h + 1, order) && IsPath(path[..|path| - 1])
      && (if |path| == 1 then 1 else order / 2) <= |f.node.contents| <= order
      && (forall i :: 0 <= i < |f.node.children| && i != f.index ==>
        Put(f, t).children[i] == f.node.children[i] && Good(f.node.children[i], h, order))
  {
    hide Good;
  }

  /** A level up, the path and its node hold the same items. */
  lemma OneUp(path: Path, t: Tree)
    requires path != [] && IsPath(path)
    ensures IsPath(path[..|path| - 1])
    ensures LeftOf(path[..|path| - 1]) + Items(Put(path[|path| - 1], t)) + RightOf(path[..|path| - 1])
      == LeftOf(path) + Items(t) + RightOf(path)
  {
    hide Items, Before, After, Put;
    ItemsPut(path[|path| - 1], t);
  }

  /** A node that takes the place of the parent, with the same items, completes the tree. */
  lemma PlugParent(path: Path, t: Tree, v: Tree, h: nat, order: nat)
    requires path != [] && IsPath(path) && GoodPath(path[..|path| - 1], h + 1, order)
    requires Items(v) == Items(Put(path[|path| - 1], t)) && Kids(v, h + 1, order)
    requires (if |path| == 1 then 1 else order / 2) <= |v.contents| <= order
    ensures IsPath(path[..|path| - 1]) && GoodRoot(Plug(path[..|path| - 1], v), h + |path|, order)
    ensures Items(Plug(path[..|path| - 1], v)) == LeftOf(path) + Items(t) + RightOf(path)
  {
    hide Items, Kids, GoodPath, LeftOf, RightOf, Plug, Put;
    var up := path[..|path| - 1];
    OneUp(path, t);
    SizedIsGood(v, h + 1, order, |path| == 1);
    hide Good, GoodRoot;
    PlugIsGood(up, v, h + 1, order);
    ItemsPlug(up, v);
  }

  lemma {:induction false} ExchangeKids(t: Tree, i: nat, a: Tree, k: int, b: Tree, h: nat, order: nat)
    requires IsBranch(t) && i < |t.contents| && Good(a, h, order) && Good(b, h, order)
    requires forall j :: 0 <= j < |t.children| && j != i && j != i + 1 ==> Good(t.children[j], h, order)
    ensures Kids(Exchange(t, i, a, k, b), h + 1, order)
  {
    hide Good;
  }

  /** Putting one item more into the parent. */
  lemma {:induction false} PartedKids(t: Tree, i: nat, a: Tree, k: int, b: Tree, h: nat, order: nat)
    requires IsBranch(t) && i <= |t.contents| && Good(a, h, order) && Good(b, h, order)
    requires forall j :: 0 <= j < |t.children| && j != i ==> Good(t.children[j], h, order)
    ensures Kids(Parted(t, i, a, k, b), h + 1, order)
  {
    hide Good;
    var u := Parted(t, i, a, k, b);
    forall j | 0 <= j < |u.children| ensures Good(u.children[j], h, order) {
      assert u.children[j] == if j < i then t.children[j] else if j == i then a else if j == i + 1 then b
        else t.children[j - 1];
    }
  }

  lemma {:induction false} PartedPath(path: Path, t: Tree, a: Tree, k: int, b: Tree, h: nat, order: nat)
    returns (v: Tree)
    requires path != [] && IsPath(path) && GoodPath(path, h, order)
    requires Good(a, h, order) && Good(b, h, order) && Items(a) + [k] + Items(b) == Items(t)
    ensures IsFrame(path[|path| - 1]) && IsBranch(Put(path[|path| - 1], t))
    ensures v == Parted(Put(path[|path| - 1], t), path[|path| - 1].index, a, k, b) && Kids(v, h + 1, order)
    ensures IsPath(path[..|path| - 1]) && GoodPath(path[..|path| - 1], h + 1, order)
    ensures (if |path| == 1 then 1 else order / 2) <= |v.contents| <= order + 1
    ensures Items(v) == Items(Put(path[|path| - 1], t))
    ensures LeftOf(path[..|path| - 1]) + Items(v) + RightOf(path[..|path| - 1])
      == LeftOf(path) + Items(t) + RightOf(path)
  {
    hide Good, Items, GoodPath, Kids, LeftOf, RightOf;
    var f := path[|path| - 1];
    ParentOf(path, t, h, order);
    var u := Put(f, t);
    v := Parted(u, f.index, a, k, b);
    PartedKids(u, f.index, a, k, b, h, order);
    ItemsParted(u, f.index, a, k, b);
    OneUp(path, t);
  }

  lemma {:induction false} NewRoot(o: BNode, a: Tree, k: int, b: Tree, h: nat, order: nat)
    requires order >= 2 && Good(a, h, order) && Good(b, h, order)
    ensures GoodRoot(Tree(o, [k], [a, b]), h + 1, order) && Items(Tree(o, [k], [a, b])) == Items(a) + [k] + Items(b)
  {
    hide Good;
    ItemsAtTwo(Tree(o, [k], [a, b]), 0);
  }

  lemma NoPath()
    ensures LeftOf([]) == [] && RightOf([]) == []
  {}

  lemma {:induction false} ConsolidatedKids(t: Tree, i: nat, c: Tree, h: nat, order: nat)
    requires IsBranch(t) && i < |t.contents| && Good(c, h, order)
    requires forall j :: 0 <= j < |t.children| && j != i && j != i + 1 ==> Good(t.children[j], h, order)
    ensures Kids(Consolidated(t, i, c), h + 1, order)
  {
    hide Good;
    var u := Consolidated(t, i, c);
    forall j | 0 <= j < |u.children| ensures Good(u.children[j], h, order) {
      assert u.children[j] == if j < i then t.children[j] else if j == i then c else t.children[j + 1];
    }
  }

  lemma {:induction false} ConsolidatedPath(path: Path, t: Tree, i: nat, c: Tree, h: nat, order: nat) returns (v: Tree)
    requires path != [] && IsPath(path) && GoodPath(path, h, order)
    requires i < |path[|path| - 1].node.contents| && (path[|path| - 1].index == i || path[|path| - 1].index == i + 1)
    requires Good(c, h, order)
    requires var u := Put(path[|path| - 1], t);
      Items(c) == Items(u.children[i]) + [u.contents[i]] + Items(u.children[i + 1])
    ensures IsFrame(path[|path| - 1]) && IsBranch(Put(path[|path| - 1], t))
    ensures v == Consolidated(Put(path[|path| - 1], t), i, c) && Kids(v, h + 1, order) && IsBranch(v)
    ensures IsPath(path[..|path| - 1]) && GoodPath(path[..|path| - 1], h + 1, order)
    ensures (if |path| == 1 then 0 else order / 2 - 1) <= |v.contents| <= order - 1
    ensures Items(v) == Items(Put(path[|path| - 1], t))
    ensures LeftOf(path[..|path| - 1]) + Items(v) + RightOf(path[..|path| - 1])
      == LeftOf(path) + Items(t) + RightOf(path)
    ensures |v.contents| == 0 ==> Items(v) == Items(c)
  {
    hide Good, Items, GoodPath, Kids, LeftOf, RightOf;
    var f := path[|path| - 1];
    ParentOf(path, t, h, order);
    var u := Put(f, t);
    v := Consolidated(u, i, c);
    ConsolidatedKids(u, i, c, h, order);
    ItemsConsolidated(u, i, c);
    OneUp(path, t);
    if |v.contents| == 0 {
      assert v == Tree(u.obj, [], [c]);
      OneChild(u.obj, c);
    }
  }

  lemma OneChild(o: BNode, c: Tree)
    ensures Items(Tree(o, [], [c])) == Items(c)
  {}
}
