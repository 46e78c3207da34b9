/**
  The class BTree of multithread/btree/btree.py: finding the path to an item, inserting,
  removing and looking up in a tree of node objects, against the set of the tree's items.
 */
module BTreeSet {

  import opened Sorting
  import opened BTreeNodes
  import opened BTreeHeap
  import opened BTreeSteps
  import opened BTreeSearch

  // ---------------------------------------------------------------------
  // Ancestors
  // ---------------------------------------------------------------------

  /** An entry of the list of ancestors: a node and the index of the child below. */
  datatype Ancestor = Ancestor(node: BNode, index: nat)

  ghost predicate Along(ancestors: seq<Ancestor>, path: Path) {
    && |ancestors| == |path|
    && forall k :: 0 <= k < |path| ==> ancestors[k] == Ancestor(path[k].node.obj, path[k].index)
  }

  /** The object at the top of a path. */
  function TopOf(path: Path, t: Tree): BNode {
    if path == [] then t.obj else path[0].node.obj
  }

  lemma {:induction false} PlugTop(path: Path, t: Tree)
    requires IsPath(path)
    ensures Plug(path, t).obj == TopOf(path, t)
  {
    if path != [] {
      PlugTop(path[..|path| - 1], Put(path[|path| - 1], t));
    }
  }

  class BTree {
    const order: nat
    var root: BNode

    /** The tree of the root, and the depth of its leaves. */
    ghost var tree: Tree
    ghost var height: nat

    /** `whole` is the tree of the root object. */
    ghost predicate Holds(whole: Tree, h: nat)
      reads this`root, Objs(whole)
    {
      Rep(whole) && Sep(whole) && whole.obj == root && GoodRoot(whole, h, order)
    }

    ghost predicate Valid()
      reads this, Objs(tree)
    {
      order >= 2 && Holds(tree, height) && Increasing(Items(tree))
    }

    ghost function Elements(): set<int>
      reads this`tree
    {
      Members(Items(tree))
    }

    constructor (order: nat)
      requires order >= 2
      ensures Valid() && this.order == order && Elements() == {} && fresh(Objs(tree))
    {
      this.order := order;
      var leaf := new BNode([], []);
      root := leaf;
      tree := Tree(leaf, [], []);
      height := 0;
    }

    // -------------------------------------------------------------------
    // A node with one item too many
    // -------------------------------------------------------------------

    /** A parent that was changed in place completes the tree. */
    lemma {:induction false} Settled(path: Path, t: Tree, v: Tree, h: nat) returns (whole: Tree)
      requires order >= 2 && path != [] && IsPath(path) && IsPath(path[..|path| - 1])
      requires GoodPath(path[..|path| - 1], h + 1, order) && Placed(path[..|path| - 1], v)
      requires v.obj == path[|path| - 1].node.obj && root == path[0].node.obj
      requires Items(v) == Items(Put(path[|path| - 1], t)) && Kids(v, h + 1, order)
      requires (if |path| == 1 then 1 else order / 2) <= |v.contents| <= order
      ensures Holds(whole, h + |path|) && Items(whole) == LeftOf(path) + Items(t) + RightOf(path)
      ensures Objs(whole) == Objs(v) + PathObjs(path[..|path| - 1])
    {
      hide Rep, Sep, Objs, Items, LeftOf, RightOf, Kids, GoodPath, GoodRoot, RepPath, SepPath, PathObjs;
      var up := path[..|path| - 1];
      PlugParent(path, t, v, h, order);
      PlugPlaced(up, v);
      PlugTop(up, v);
      whole := Plug(up, v);
      hide Plug;
    }

    /** One item goes from child i + 1 through the parent to child i, and the tree is complete again. */
    method ShiftLeft(parent: BNode, i: nat, ghost t: Tree, ghost path: Path, ghost h: nat) returns (ghost whole: Tree)
      requires order >= 2 && path != [] && IsPath(path) && GoodPath(path, h, order) && Placed(path, t)
      requires var f := path[|path| - 1]; var u := Put(f, t);
        && f.node.obj == parent && root == path[0].node.obj
        && i < |u.contents| && (f.index == i || f.index == i + 1)
        && Kids(u.children[i], h, order) && Kids(u.children[i + 1], h, order)
        && order / 2 <= |u.children[i].contents| + 1 <= order
        && order / 2 <= |u.children[i + 1].contents| - 1 <= order
      modifies Objs(t), PathObjs(path)
      ensures Holds(whole, h + |path|) && Items(whole) == LeftOf(path) + Items(t) + RightOf(path)
      ensures Objs(whole) == Objs(t) + PathObjs(path)
    {
      hide Rep, Sep, Objs, Items, LeftOf, RightOf, Kids, GoodPath, GoodRoot, RepPath, SepPath, PathObjs, Good,
        FrameObjs, Plug, Before, After;
      ghost var f, up := path[|path| - 1], path[..|path| - 1];
      ghost var u := Put(f, t);
      ParentOf(path, t, h, order);
      OneLevelUp(path, t);
      ghost var above := PathObjs(up);
      assert allocated(above);
      ghost var a, k, b := LateralLeft(parent, i, u, h, order);
      ghost var v := Exchange(u, i, a, k, b);
      IsGood(a, h, order);
      IsGood(b, h, order);
      ExchangeKids(u, i, a, k, b, h, order);
      ItemsExchange(u, i, a, k, b);
      whole := Settled(path, t, v, h);
    }

    /** One item goes from child i through the parent to child i + 1. */
    method ShiftRight(parent: BNode, i: nat, ghost t: Tree, ghost path: Path, ghost h: nat) returns (ghost whole: Tree)
      requires order >= 2 && path != [] && IsPath(path) && GoodPath(path, h, order) && Placed(path, t)
      requires var f := path[|path| - 1]; var u := Put(f, t);
        && f.node.obj == parent && root == path[0].node.obj
        && i < |u.contents| && (f.index == i || f.index == i + 1)
        && Kids(u.children[i], h, order) && Kids(u.children[i + 1], h, order)
        && order / 2 <= |u.children[i].contents| - 1 <= order
        && order / 2 <= |u.children[i + 1].contents| + 1 <= order
      modifies Objs(t), PathObjs(path)
      ensures Holds(whole, h + |path|) && Items(whole) == LeftOf(path) + Items(t) + RightOf(path)
      ensures Objs(whole) == Objs(t) + PathObjs(path)
    {
      hide Rep, Sep, Objs, Items, LeftOf, RightOf, Kids, GoodPath, GoodRoot, RepPath, SepPath, PathObjs, Good,
        FrameObjs, Plug, Before, After;
      ghost var f, up := path[|path| - 1], path[..|path| - 1];
      ghost var u := Put(f, t);
      ParentOf(path, t, h, order);
      OneLevelUp(path, t);
      ghost var above := PathObjs(up);
      assert allocated(above);
      ghost var a, k, b := LateralRight(parent, i, u, h, order);
      ghost var v := Exchange(u, i, a, k, b);
      IsGood(a, h, order);
      IsGood(b, h, order);
      ExchangeKids(u, i, a, k, b, h, order);
      ItemsExchange(u, i, a, k, b);
      whole := Settled(path, t, v, h);
    }

    /** What the list of ancestors says about the parent of `t` and its children. */
    lemma {:induction false} ParentInHeap(ancestors: seq<Ancestor>, path: Path, t: Tree, h: nat)
      requires path != [] && IsPath(path) && GoodPath(path, h, order) && Placed(path, t) && Along(ancestors, path)
      ensures |ancestors| == |path|
      ensures var anc := ancestors[|ancestors| - 1]; var f := path[|path| - 1]; var u := Put(f, t);
        && anc.node == f.node.obj && anc.index == f.index
        && anc.node.contents == u.contents && anc.node.children == Roots(u.children)
        && |u.children| == |u.contents| + 1 && anc.index < |u.children| && u.children[anc.index] == t
        && (forall j :: 0 <= j < |u.children| ==> u.children[j].obj.contents == u.children[j].contents)
        && (forall j :: 0 <= j < |u.children| && j != anc.index ==> Good(u.children[j], h, order))
      ensures ancestors[|ancestors| - 1].node in PathObjs(path)
      ensures Along(ancestors[..|ancestors| - 1], path[..|path| - 1])
      ensures path[0].node.obj == TopOf(path[..|path| - 1], Put(path[|path| - 1], t))
    {
      hide Objs, Sep, SepPath, RepPath, PathObjs, Good, Kids;
      ParentOf(path, t, h, order);
      OneLevelUp(path, t);
      var u := Put(path[|path| - 1], t);
      RepIs(u);
      assert forall j :: 0 <= j < |u.children| ==> Rep(u.children[j]);
    }

    /**
      _BNode.shrink: a node with one item too many lends one to a neighbour, or is split and
      its median goes up, in the end into a new root.
     */
    method Shrink(self: BNode, ancestors: seq<Ancestor>, ghost t: Tree, ghost path: Path, ghost h: nat)
      returns (ghost whole: Tree, ghost depth: nat, ghost added: set<BNode>)
      requires order >= 2 && IsPath(path) && GoodPath(path, h, order) && Placed(path, t) && Along(ancestors, path)
      requires t.obj == self && root == TopOf(path, t) && Kids(t, h, order) && |t.contents| == order + 1
      modifies this`root, Objs(t), PathObjs(path)
      ensures Holds(whole, depth) && Items(whole) == LeftOf(path) + Items(t) + RightOf(path)
      ensures fresh(added) && Objs(whole) <= Objs(t) + PathObjs(path) + added
      decreases |path|, 1
    {
      hide Rep, Sep, Objs, Items, LeftOf, RightOf, Kids, GoodPath, GoodRoot, RepPath, SepPath, PathObjs, Good,
        FrameObjs, Plug, Before, After, Placed;
      depth, added := h + |path|, {};
      if |ancestors| > 0 {
        ParentInHeap(ancestors, path, t, h);
        var parent, i := ancestors[|ancestors| - 1].node, ancestors[|ancestors| - 1].index;
        ghost var u := Put(path[|path| - 1], t);
        if i > 0 {
          GoodIs(u.children[i - 1], h, order);
          if |parent.children[i - 1].contents| < order {
            whole := ShiftLeft(parent, i - 1, t, path, h);
            return;
          }
        }
        if i + 1 < |parent.children| {
          GoodIs(u.children[i + 1], h, order);
          if |parent.children[i + 1].contents| < order {
            whole := ShiftRight(parent, i, t, path, h);
            return;
          }
        }
      }
      whole, depth, added := SplitUp(self, ancestors, t, path, h);
    }

    /** The part of _BNode.shrink after the neighbours. */
    method SplitUp(self: BNode, ancestors: seq<Ancestor>, ghost t: Tree, ghost path: Path, ghost h: nat)
      returns (ghost whole: Tree, ghost depth: nat, ghost added: set<BNode>)
      requires order >= 2 && IsPath(path) && GoodPath(path, h, order) && Placed(path, t) && Along(ancestors, path)
      requires t.obj == self && root == TopOf(path, t) && Kids(t, h, order) && |t.contents| == order + 1
      modifies this`root, Objs(t), PathObjs(path)
      ensures Holds(whole, depth) && Items(whole) == LeftOf(path) + Items(t) + RightOf(path)
      ensures fresh(added) && Objs(whole) <= Objs(t) + PathObjs(path) + added
      decreases |path|, 0
    {
      hide Rep, Sep, Objs, Items, LeftOf, RightOf, Kids, GoodPath, GoodRoot, RepPath, SepPath, PathObjs, Good,
        FrameObjs, Plug, Before, After;
      ghost var below, above := Objs(t), PathObjs(path);
      assert allocated(below) && allocated(above);
      ObjsAre(t);
      var sibling, push;
      ghost var a, b;
      sibling, push, a, b := Split(self, t, h, order);
      if |ancestors| == 0 {
        whole, depth, added := GrowRoot(self, push, sibling, a, b, h);
        added := added + {sibling};
        NoPath();
      } else {
        assert Placed(path, a);
        ParentInHeap(ancestors, path, a, h);
        OneLevelUp(path, a);
        var parent, i := ancestors[|ancestors| - 1].node, ancestors[|ancestors| - 1].index;
        ghost var f, up := path[|path| - 1], path[..|path| - 1];
        ghost var beyond := PathObjs(up);
        assert allocated(beyond);
        ObjsAre(Put(f, a));
        assert parent !in beyond;
        ghost var v := AddSibling(parent, i, push, sibling, Put(f, a), b);
        ghost var w := PartedPath(path, t, a, push, b, h, order);
        SameParted(f, t, a, push, b);
        assert v == w;
        RepIs(v);
        assert Placed(up, v);
        if |parent.contents| > order {
          whole, depth, added := Shrink(parent, ancestors[..|ancestors| - 1], v, up, h + 1);
          added := added + {sibling};
        } else {
          whole := Settled(path, t, v, h);
          depth, added := h + |path|, {sibling};
        }
      }
    }

    lemma SameParted(f: Frame, t: Tree, a: Tree, k: int, b: Tree)
      requires IsFrame(f)
      ensures Parted(Put(f, a), f.index, Put(f, a).children[f.index], k, b) == Parted(Put(f, t), f.index, a, k, b)
    {}

    /** The root was split: a new root above both halves. */
    method GrowRoot(self: BNode, push: int, sibling: BNode, ghost a: Tree, ghost b: Tree, ghost h: nat)
      returns (ghost whole: Tree, ghost depth: nat, ghost added: set<BNode>)
      requires order >= 2 && Rep(a) && Rep(b) && Sep(a) && Sep(b) && Objs(a) !! Objs(b)
      requires a.obj == self && b.obj == sibling && Good(a, h, order) && Good(b, h, order)
      modifies this`root
      ensures Holds(whole, depth) && Items(whole) == Items(a) + [push] + Items(b)
      ensures fresh(added) && Objs(whole) <= Objs(a) + Objs(b) + added
    {
      hide Rep, Sep, Objs, Items, GoodRoot, Good, KidObjs, SepKids, RepKids;
      ghost var left, right := Objs(a), Objs(b);
      assert allocated(left) && allocated(right);
      var parent := new BNode([push], [self, sibling]);
      root := parent;
      whole := Tree(parent, [push], [a, b]);
      depth, added := h + 1, {parent};
      PairSep(a, b);
      RepIs(whole);
      SepIs(whole);
      ObjsAre(whole);
      NewRoot(parent, a, push, b, h, order);
    }

    // -------------------------------------------------------------------
    // A node with one item too few
    // -------------------------------------------------------------------

    /** _BNode.grow: the node borrows an item or is consolidated with a neighbour. */
    method Grow(self: BNode, ancestors: seq<Ancestor>, ghost t: Tree, ghost path: Path, ghost h: nat)
      returns (ghost whole: Tree, ghost depth: nat)
      requires order >= 2 && path != [] && IsPath(path) && GoodPath(path, h, order) && Placed(path, t)
        && Along(ancestors, path)
      requires t.obj == self && root == TopOf(path, t) && Kids(t, h, order) && |t.contents| == order / 2 - 1
      modifies this`root, Objs(t), PathObjs(path)
      ensures Holds(whole, depth) && Items(whole) == LeftOf(path) + Items(t) + RightOf(path)
      ensures Objs(whole) <= Objs(t) + PathObjs(path)
      decreases |path|, 1
    {
      hide Rep, Sep, Objs, Items, LeftOf, RightOf, Kids, GoodPath, GoodRoot, RepPath, SepPath, PathObjs, Good,
        FrameObjs, Plug, Before, After, Placed;
      depth := h + |path|;
      ParentInHeap(ancestors, path, t, h);
      var parent, i := ancestors[|ancestors| - 1].node, ancestors[|ancestors| - 1].index;
      ghost var u := Put(path[|path| - 1], t);
      var minimum := order / 2;
      if i + 1 < |parent.children| {
        GoodIs(u.children[i + 1], h, order);
        if |parent.children[i + 1].contents| > minimum {
          whole := ShiftLeft(parent, i, t, path, h);
          return;
        }
      }
      if i > 0 {
        GoodIs(u.children[i - 1], h, order);
        if |parent.children[i - 1].contents| > minimum {
          whole := ShiftRight(parent, i - 1, t, path, h);
          return;
        }
        whole, depth := ConsolidateAt(parent, i - 1, ancestors, t, path, h);
      } else {
        ParentHasTwo(path, h);
        whole, depth := ConsolidateAt(parent, i, ancestors, t, path, h);
      }
    }

    lemma {:induction false} ParentHasTwo(path: Path, h: nat)
      requires order >= 2 && path != [] && GoodPath(path, h, order)
      ensures |path[|path| - 1].node.children| >= 2
    {}

    /** The last part of _BNode.grow: the neighbours become one, and the parent may be too small now. */
    method ConsolidateAt(parent: BNode, at: nat, ancestors: seq<Ancestor>, ghost t: Tree, ghost path: Path,
        ghost h: nat)
      returns (ghost whole: Tree, ghost depth: nat)
      requires order >= 2 && path != [] && IsPath(path) && GoodPath(path, h, order) && Placed(path, t)
        && Along(ancestors, path)
      requires root == TopOf(path, t) && path[|path| - 1].node.obj == parent
      requires var f := path[|path| - 1]; var u := Put(f, t);
        && at + 1 < |u.children| && |u.children| == |u.contents| + 1 && (f.index == at || f.index == at + 1)
        && Kids(u.children[at], h, order) && Kids(u.children[at + 1], h, order)
        && order / 2 <= |u.children[at].contents| + |u.children[at + 1].contents| + 1 <= order
      modifies this`root, Objs(t), PathObjs(path)
      ensures Holds(whole, depth) && Items(whole) == LeftOf(path) + Items(t) + RightOf(path)
      ensures Objs(whole) <= Objs(t) + PathObjs(path)
      decreases |path|, 0
    {
      hide Rep, Sep, Objs, Items, LeftOf, RightOf, Kids, GoodPath, GoodRoot, RepPath, SepPath, PathObjs, Good,
        FrameObjs, Plug, Before, After;
      ParentInHeap(ancestors, path, t, h);
      OneLevelUp(path, t);
      ghost var up := path[..|path| - 1];
      ghost var u := Put(path[|path| - 1], t);
      ghost var beyond := PathObjs(up);
      assert allocated(beyond);
      ghost var x, y := u.children[at], u.children[at + 1];
      ghost var c := Join(x, u.contents[at], y);
      KidsJoin(x, u.contents[at], y, h, order);
      ItemsJoin(x, u.contents[at], y);
      IsGood(c, h, order);
      var left := parent.children[at];
      ghost var v := Consolidate(parent, at, u);
      ghost var w := ConsolidatedPath(path, t, at, c, h, order);
      RepIs(v);
      assert Placed(up, v);
      var minimum := order / 2;
      if |parent.contents| < minimum && |ancestors| > 1 {
        whole, depth := Grow(parent, ancestors[..|ancestors| - 1], v, up, h + 1);
      } else if |parent.contents| < minimum && |parent.contents| == 0 {
        OnlyChild(v, c);
        root := left;
        whole, depth := c, h;
        GoodIs(c, h, order);
        IsRoot(c, h);
        NoPath();
      } else {
        whole := Settled(path, t, v, h);
        depth := h + |path|;
      }
    }

    lemma {:induction false} IsRoot(t: Tree, h: nat)
      requires order >= 2 && Kids(t, h, order) && order / 2 <= |t.contents| <= order
      ensures GoodRoot(t, h, order)
    {}

    lemma {:induction false} OnlyChild(v: Tree, c: Tree)
      requires v.contents == [] && v.children == [c]
      ensures Rep(v) ==> Rep(c) && v.obj.children == [c.obj]
      ensures Sep(v) ==> Sep(c)
      ensures Objs(c) <= Objs(v)
    {
      assert v.children[0] == c;
    }

    // -------------------------------------------------------------------
    // Leaves
    // -------------------------------------------------------------------

    /** A leaf that was changed in place completes the tree. */
    lemma {:induction false} Completed(path: Path, t: Tree, h: nat) returns (whole: Tree)
      requires IsPath(path) && GoodPath(path, h, order) && Placed(path, t) && root == TopOf(path, t)
      requires if path == [] then GoodRoot(t, h, order) else Good(t, h, order)
      ensures Holds(whole, h + |path|) && Items(whole) == LeftOf(path) + Items(t) + RightOf(path)
      ensures Objs(whole) == Objs(t) + PathObjs(path)
    {
      hide Rep, Sep, Objs, Items, LeftOf, RightOf, Kids, GoodPath, GoodRoot, RepPath, SepPath, PathObjs;
      PlugPlaced(path, t);
      PlugTop(path, t);
      PlugIsGood(path, t, h, order);
      ItemsPlug(path, t);
      whole := Plug(path, t);
    }

    /** _BNode.remove on a leaf. */
    method RemoveFromLeaf(self: BNode, index: nat, ancestors: seq<Ancestor>, ghost t: Tree, ghost path: Path)
      returns (ghost whole: Tree, ghost depth: nat)
      requires order >= 2 && IsPath(path) && GoodPath(path, 0, order) && Placed(path, t) && Along(ancestors, path)
      requires t.obj == self && root == TopOf(path, t) && index < |t.contents|
      requires if path == [] then GoodRoot(t, 0, order) else Good(t, 0, order)
      modifies this`root, Objs(t), PathObjs(path)
      ensures Holds(whole, depth) && Items(whole) == LeftOf(path) + Cut(t.contents, index) + RightOf(path)
      ensures Objs(whole) <= Objs(t) + PathObjs(path)
    {
      hide Rep, Sep, Objs, Items, LeftOf, RightOf, GoodPath, RepPath, SepPath, PathObjs, Plug, KidObjs, SepKids,
        RepKids;
      ghost var above := PathObjs(path);
      assert allocated(above);
      ghost var u := t.(contents := Cut(t.contents, index));
      Relabelled(t, u);
      self.contents := self.contents[..index] + self.contents[index + 1..];
      IsRep(u);
      LeafOnly(u, 0, order);
      depth := |path|;
      if |self.contents| < order / 2 && |ancestors| > 0 {
        whole, depth := Grow(self, ancestors, u, path, 0);
      } else {
        whole := Completed(path, u, 0);
      }
    }

    // -------------------------------------------------------------------
    // Branches
    // -------------------------------------------------------------------

    /** The data item is replaced by the one after it, the first of a leaf, which loses it. */
    method PromoteNext(self: BNode, index: nat, ancestors: seq<Ancestor>, more: seq<Ancestor>, leaf: BNode,
      ghost t: Tree, ghost path: Path, ghost chain: Path, ghost lt: Tree)
      returns (ghost whole: Tree, ghost depth: nat)
      requires order >= 2 && IsPath(path) && GoodPath(path, |chain| + 1, order) && Placed(path, t)
        && Along(ancestors, path)
      requires t.obj == self && root == TopOf(path, t) && Kids(t, |chain| + 1, order) && index < |t.contents| <= order
      requires (if path == [] then 1 else order / 2) <= |t.contents|
      requires IsPath(chain) && GoodChain(chain, 0, order) && Along(more, chain) && lt.obj == leaf && Good(lt, 0, order)
      requires IsBranch(t) && Plug(chain, lt) == t.children[index + 1] && LeftOf(chain) == [] && |lt.contents| > 0
      modifies this`root, Objs(t), PathObjs(path)
      ensures Holds(whole, depth)
        && Items(whole) == LeftOf(path) + (LeftPart(t, index) + RightPart(t, index)) + RightOf(path)
      ensures Objs(whole) <= Objs(t) + PathObjs(path)
    {
      hide Rep, Sep, Objs, Items, LeftOf, RightOf, GoodPath, GoodChain, RepPath, SepPath, PathObjs, Plug,
        KidObjs, SepKids, RepKids, Kids, Good, GoodRoot, Before, After;
      LeafInHeap(path, t, index + 1, chain, lt);
      Relabelled(t, t);
      var next := leaf.contents[0];
      ghost var u := Rename(self, index, next, t, path);
      KidsRenamed(t, u.contents, |chain| + 1, order);
      ghost var full := path + [Frame(u, index + 1)] + chain;
      Through(path, u, index + 1, chain, order);
      Deepen(path, u, index + 1, chain, lt);
      AlongThrough(ancestors, path, Ancestor(self, index + 1), Frame(u, index + 1), more, chain);
      LeftRenamed(t, index, next);
      LeafItems(lt, order);
      ItemsPlug(chain, lt);
      whole, depth := RemoveFromLeaf(leaf, 0, ancestors + [Ancestor(self, index + 1)] + more, lt, full);
      NextRegrouped(LeftOf(path), Before(t, index), Items(t.children[index]), lt.contents, RightOf(chain),
        After(t, index + 1), RightOf(path));
    }

    /** The data item is replaced by the one before it, the last of a leaf, which loses it. */
    method PromotePrevious(self: BNode, index: nat, ancestors: seq<Ancestor>, more: seq<Ancestor>, leaf: BNode,
      ghost t: Tree, ghost path: Path, ghost chain: Path, ghost lt: Tree)
      returns (ghost whole: Tree, ghost depth: nat)
      requires order >= 2 && IsPath(path) && GoodPath(path, |chain| + 1, order) && Placed(path, t)
        && Along(ancestors, path)
      requires t.obj == self && root == TopOf(path, t) && Kids(t, |chain| + 1, order) && index < |t.contents| <= order
      requires (if path == [] then 1 else order / 2) <= |t.contents|
      requires IsPath(chain) && GoodChain(chain, 0, order) && Along(more, chain) && lt.obj == leaf && Good(lt, 0, order)
      requires IsBranch(t) && Plug(chain, lt) == t.children[index] && RightOf(chain) == [] && |lt.contents| > 0
      modifies this`root, Objs(t), PathObjs(path)
      ensures Holds(whole, depth)
        && Items(whole) == LeftOf(path) + (LeftPart(t, index) + RightPart(t, index)) + RightOf(path)
      ensures Objs(whole) <= Objs(t) + PathObjs(path)
    {
      hide Rep, Sep, Objs, Items, LeftOf, RightOf, GoodPath, GoodChain, RepPath, SepPath, PathObjs, Plug,
        KidObjs, SepKids, RepKids, Kids, Good, GoodRoot, Before, After;
      LeafInHeap(path, t, index, chain, lt);
      Relabelled(t, t);
      var last := |leaf.contents| - 1;
      var next := leaf.contents[last];
      ghost var u := Rename(self, index, next, t, path);
      KidsRenamed(t, u.contents, |chain| + 1, order);
      ghost var full := path + [Frame(u, index)] + chain;
      Through(path, u, index, chain, order);
      Deepen(path, u, index, chain, lt);
      AlongThrough(ancestors, path, Ancestor(self, index), Frame(u, index), more, chain);
      LeftRenamed(t, index, next);
      LeafItems(lt, order);
      ItemsPlug(chain, lt);
      whole, depth := RemoveFromLeaf(leaf, last, ancestors + [Ancestor(self, index)] + more, lt, full);
      PreviousRegrouped(LeftOf(path), Before(t, index), LeftOf(chain), lt.contents, Items(t.children[index + 1]),
        After(t, index + 1), RightOf(path));
    }

    /** The leaf at the end of a chain is in the heap like the whole tree. */
    lemma {:induction false} LeafInHeap(path: Path, t: Tree, i: nat, chain: Path, lt: Tree)
      requires IsPath(path) && Placed(path, t) && IsBranch(t) && i < |t.children| && IsPath(chain)
      requires Plug(chain, lt) == t.children[i]
      ensures lt.obj.contents == lt.contents
    {
      hide Rep, Sep, Objs, PathObjs, RepPath, SepPath, Plug;
      Deepen(path, t, i, chain, lt);
      RepIs(lt);
    }

    /** An item of a node is overwritten. */
    method Rename(self: BNode, index: nat, x: int, ghost t: Tree, ghost path: Path) returns (ghost u: Tree)
      requires IsPath(path) && Placed(path, t) && t.obj == self && index < |t.contents|
      modifies self
      ensures u == t.(contents := t.contents[index := x]) && Placed(path, u) && Objs(u) == Objs(t)
    {
      hide Rep, Sep, Objs, RepPath, SepPath, PathObjs, KidObjs, SepKids, RepKids;
      ghost var above := PathObjs(path);
      assert allocated(above);
      u := t.(contents := t.contents[index := x]);
      Relabelled(t, u);
      self.contents := self.contents[index := x];
      IsRep(u);
    }

    /**
      _BNode.remove on a branch: the data item is replaced by the one after it, unless the leaf
      that has it would become too small; then by the one before it.
     */
    method RemoveFromBranch(self: BNode, index: nat, ancestors: seq<Ancestor>, ghost t: Tree, ghost path: Path,
        ghost h: nat)
      returns (ghost whole: Tree, ghost depth: nat)
      requires order >= 2 && h >= 1 && IsPath(path) && GoodPath(path, h, order) && Placed(path, t)
        && Along(ancestors, path)
      requires t.obj == self && root == TopOf(path, t) && Kids(t, h, order) && index < |t.contents| <= order
      requires (if path == [] then 1 else order / 2) <= |t.contents|
      modifies this`root, Objs(t), PathObjs(path)
      ensures Shaped(t)
      ensures Holds(whole, depth)
        && Items(whole) == LeftOf(path) + (LeftPart(t, index) + RightPart(t, index)) + RightOf(path)
      ensures Objs(whole) <= Objs(t) + PathObjs(path)
    {
      hide Rep, Sep, Objs, Items, LeftOf, RightOf, GoodPath, GoodChain, RepPath, SepPath, PathObjs, Plug,
        KidObjs, SepKids, RepKids, Kids, Good, GoodRoot, Before, After, LeftPart, RightPart;
      ChildInHeap(t, index, h, order);
      ChildInHeap(t, index + 1, h, order);
      ghost var below, above, first := Objs(t), PathObjs(path), Objs(t.children[index]);
      assert allocated(below) && allocated(above) && allocated(first);
      var more, leaf;
      ghost var chain, lt;
      more, leaf, chain, lt := Leftmost(self.children[index + 1], t.children[index + 1], h - 1, order);
      GoodIs(lt, 0, order);
      if |leaf.contents| > order / 2 {
        whole, depth := PromoteNext(self, index, ancestors, more, leaf, t, path, chain, lt);
        return;
      }
      more, leaf, chain, lt := Rightmost(self.children[index], t.children[index], h - 1, order);
      GoodIs(lt, 0, order);
      whole, depth := PromotePrevious(self, index, ancestors, more, leaf, t, path, chain, lt);
    }

    // -------------------------------------------------------------------
    // Searching
    // -------------------------------------------------------------------

    /** _path_to: the ancestors, the node where the search ends and the position in it. */
    method PathTo(item: int)
      returns (ancestors: seq<Ancestor>, node: BNode, index: nat, ghost path: Path, ghost t: Tree, ghost h: nat)
      requires Valid()
      ensures IsPath(path) && Searching(tree, path, t, item, h, order) && Shaped(t) && Placed(path, t)
        && Along(ancestors, path)
      ensures t.obj == node && t.contents == node.contents && TopOf(path, t) == root
      ensures Objs(t) + PathObjs(path) == Objs(tree)
      ensures IsPosition(t.contents, item, index)
      ensures t.children == [] || (index < |t.contents| && t.contents[index] == item)
      ensures item in Elements() <==> index < |node.contents| && node.contents[index] == item
    {
      hide Searching, Items, GoodRoot, Kids, IsPosition, Placed, Objs, PathObjs, Rep, Sep, Increasing;
      SearchBegins(item);
      ancestors, node, path, t, h := [], root, [], tree, height;
      NodeInHeap(path, t);
      while node.children != []
        invariant IsPath(path) && Searching(tree, path, t, item, h, order) && Placed(path, t) && Along(ancestors, path)
        invariant t.obj == node && t.contents == node.contents && Roots(t.children) == node.children
          && TopOf(path, t) == root
        invariant Objs(t) + PathObjs(path) == Objs(tree)
        decreases h
      {
        SearchKids(tree, path, t, item, h, order);
        SearchIncreasing(tree, path, t, item, h, order);
        ghost var below, above := Objs(t), PathObjs(path);
        assert allocated(below) && allocated(above);
        index := BisectLeft(node.contents, item);
        PositionFits(node.contents, item, index);
        if index < |node.contents| && node.contents[index] == item {
          SearchItems(tree, path, t, item, index, h, order);
          return;
        }
        SearchDown(tree, path, t, item, index, h, order);
        StepDown(ancestors, path, t, index);
        ancestors := ancestors + [Ancestor(node, index)];
        path, t, h := path + [Frame(t, index)], t.children[index], h - 1;
        node := node.children[index];
        NodeInHeap(path, t);
      }
      SearchKids(tree, path, t, item, h, order);
      SearchIncreasing(tree, path, t, item, h, order);
      ghost var below, above := Objs(t), PathObjs(path);
      assert allocated(below) && allocated(above);
      index := BisectLeft(node.contents, item);
      SearchItems(tree, path, t, item, index, h, order);
    }

    lemma SearchBegins(item: int)
      requires Valid()
      ensures Searching(tree, [], tree, item, height, order) && Placed([], tree) && Along([], [])
      ensures tree.obj == root && TopOf([], tree) == root && Objs(tree) + PathObjs([]) == Objs(tree)
    {
      hide Items, Rep, Sep, Objs;
      SearchStart(tree, item, height, order);
    }

    /** The operator in. */
    method Contains(item: int) returns (present: bool)
      requires Valid()
      ensures present == (item in Elements())
    {
      hide Items, GoodRoot, Increasing, Placed, Rep, Sep, Searching, IsPosition, Objs;
      var ancestors, node, index;
      ghost var path, t, h;
      ancestors, node, index, path, t, h := PathTo(item);
      present := index < |node.contents| && node.contents[index] == item;
    }

    /** _BNode.insert at the leaf where the search ended. */
    method InsertAt(self: BNode, index: nat, item: int, ancestors: seq<Ancestor>, ghost t: Tree, ghost path: Path,
        ghost h: nat)
      returns (ghost whole: Tree, ghost depth: nat, ghost added: set<BNode>)
      requires order >= 2 && IsPath(path) && Searching(tree, path, t, item, h, order) && Increasing(Items(tree))
      requires Placed(path, t) && Along(ancestors, path) && t.obj == self && root == TopOf(path, t)
      requires t.children == [] && IsPosition(t.contents, item, index)
        && (index < |t.contents| ==> t.contents[index] != item)
      modifies this`root, Objs(t), PathObjs(path)
      ensures Holds(whole, depth) && Increasing(Items(whole))
      ensures forall y: int :: y in Items(whole) <==> y in Items(tree) || y == item
      ensures fresh(added) && Objs(whole) <= Objs(t) + PathObjs(path) + added
    {
      hide Rep, Sep, Objs, Items, LeftOf, RightOf, GoodPath, RepPath, SepPath, PathObjs, Plug, KidObjs, SepKids,
        RepKids, Searching, Increasing, GoodRoot, Good, Kids, AllBelow, AllAbove;
      SearchItems(tree, path, t, item, index, h, order);
      SearchFacts(tree, path, t, item, h, order);
      PositionFits(t.contents, item, index);
      Inserted(LeftOf(path), t.contents, index, item, RightOf(path));
      ghost var above := PathObjs(path);
      assert allocated(above);
      ghost var u := t.(contents := t.contents[..index] + [item] + t.contents[index..]);
      Relabelled(t, u);
      self.contents := self.contents[..index] + [item] + self.contents[index..];
      IsRep(u);
      LeafOnly(u, h, order);
      depth, added := h + |path|, {};
      if |self.contents| > order {
        whole, depth, added := Shrink(self, ancestors, u, path, h);
      } else {
        LeafIsGood(path, u, h, order);
        whole := Completed(path, u, h);
      }
    }

    /** _BNode.remove at the node where the search ended. */
    method RemoveAt(self: BNode, index: nat, item: int, ancestors: seq<Ancestor>, ghost t: Tree, ghost path: Path,
        ghost h: nat)
      returns (ghost whole: Tree, ghost depth: nat)
      requires order >= 2 && IsPath(path) && Searching(tree, path, t, item, h, order) && Increasing(Items(tree))
      requires Placed(path, t) && Along(ancestors, path) && t.obj == self && root == TopOf(path, t)
      requires Shaped(t) && IsPosition(t.contents, item, index) && index < |t.contents| && t.contents[index] == item
      modifies this`root, Objs(t), PathObjs(path)
      ensures Holds(whole, depth) && Increasing(Items(whole))
      ensures forall y: int :: y in Items(whole) <==> y in Items(tree) && y != item
      ensures Objs(whole) <= Objs(t) + PathObjs(path)
    {
      hide Rep, Sep, Objs, Items, LeftOf, RightOf, GoodPath, RepPath, SepPath, PathObjs, Plug, KidObjs, SepKids,
        RepKids, Searching, Increasing, GoodRoot, Good, Kids, AllBelow, AllAbove, IsPosition, Placed, Along;
      SearchItems(tree, path, t, item, index, h, order);
      SearchFacts(tree, path, t, item, h, order);
      PartsOf(t, index);
      NodeInHeap(path, t);
      ghost var left := LeftOf(path) + LeftPart(t, index);
      ghost var right := RightPart(t, index) + RightOf(path);
      assert Items(tree) == left + [item] + right;
      TakenOut(left, item, right);
      if self.children != [] {
        whole, depth := RemoveFromBranch(self, index, ancestors, t, path, h);
      } else {
        LeafIsGood(path, t, h, order);
        whole, depth := RemoveFromLeaf(self, index, ancestors, t, path);
        assert Cut(t.contents, index) == LeftPart(t, index) + RightPart(t, index);
      }
      assert Items(whole) == left + right;
    }

    /** False if the item was there already. */
    method Insert(item: int) returns (added: bool)
      requires Valid()
      modifies this, Objs(tree)
      ensures Valid() && fresh(Objs(tree) - old(Objs(tree)))
      ensures added == (item !in old(Elements())) && Elements() == old(Elements()) + {item}
    {
      hide Items, GoodRoot, Increasing, Placed, Rep, Sep, Searching, IsPosition, Objs, PathObjs, Along, LeftOf, RightOf;
      ghost var objs := Objs(tree);
      assert allocated(objs);
      var ancestors, node, index;
      ghost var path, t, h;
      ghost var extra: set<BNode>;
      ancestors, node, index, path, t, h := PathTo(item);
      SearchItems(tree, path, t, item, index, h, order);
      if index < |node.contents| && node.contents[index] == item {
        return false;
      }
      ghost var before := Items(tree);
      tree, height, extra := InsertAt(node, index, item, ancestors, t, path, h);
      SameAndOne(before, Items(tree), item);
      added := true;
    }

    /** Takes the item out, if it is there. */
    method Remove(item: int)
      requires Valid()
      modifies this, Objs(tree)
      ensures Valid() && Objs(tree) <= old(Objs(tree))
      ensures Elements() == old(Elements()) - {item}
    {
      hide Items, GoodRoot, Increasing, Placed, Rep, Sep, Searching, IsPosition, Objs, PathObjs, Along, LeftOf, RightOf;
      ghost var objs := Objs(tree);
      assert allocated(objs);
      var ancestors, node, index;
      ghost var path, t, h;
      ancestors, node, index, path, t, h := PathTo(item);
      SearchItems(tree, path, t, item, index, h, order);
      ghost var before := Items(tree);
      if index < |node.contents| && node.contents[index] == item {
        tree, height := RemoveAt(node, index, item, ancestors, t, path, h);
        SameButOne(before, Items(tree), item);
      } else {
        SameButOne(before, before, item);
      }
    }
  }

  /** Other items in the same node: the same objects. */
  lemma {:induction false} Relabelled(t: Tree, u: Tree)
    requires u.obj == t.obj && u.children == t.children
    ensures Objs(u) == Objs(t) && t.obj in Objs(t) && (Sep(u) <==> Sep(t))
    ensures Sep(t) ==> t.obj !in KidObjs(t.children)
    ensures Rep(t) ==> t.obj.contents == t.contents && t.obj.children == Roots(t.children) && RepKids(t.children)
  {
    ObjsAre(t);
    ObjsAre(u);
    SepIs(t);
    SepIs(u);
    RepIs(t);
  }

  lemma {:induction false} PlugJoin(path: Path, chain: Path, t: Tree)
    requires IsPath(path) && IsPath(chain)
    ensures IsPath(path + chain) && Plug(path + chain, t) == Plug(path, Plug(chain, t))
    decreases |chain|
  {
    if chain == [] {
      assert path + chain == path;
    } else {
      var n := |chain| - 1;
      assert (path + chain)[..|path| + n] == path + chain[..n];
      PlugJoin(path, chain[..n], Put(chain[n], t));
    }
  }

  /** The same tree, seen from the end of a chain below child `i`. */
  lemma {:induction false} Deepen(path: Path, t: Tree, i: nat, chain: Path, lt: Tree)
    requires IsPath(path) && IsBranch(t) && i < |t.children| && IsPath(chain) && Plug(chain, lt) == t.children[i]
    ensures IsPath(path + [Frame(t, i)] + chain)
    ensures Placed(path, t) <==> Placed(path + [Frame(t, i)] + chain, lt)
    ensures Objs(lt) + PathObjs(path + [Frame(t, i)] + chain) == Objs(t) + PathObjs(path)
    ensures TopOf(path + [Frame(t, i)] + chain, lt) == TopOf(path, t)
  {
    hide Placed, Objs, PathObjs;
    var f := Frame(t, i);
    var upper := path + [f];
    assert Put(f, t.children[i]) == t by {
      assert t.children[i := t.children[i]] == t.children;
    }
    assert upper[..|path|] == path;
    PlugJoin(path, [f], t.children[i]);
    PlugJoin(upper, chain, lt);
    assert Plug([f], t.children[i]) == t;
    PlugPlaced(path, t);
    PlugPlaced(upper + chain, lt);
  }

  lemma AlongThrough(ancestors: seq<Ancestor>, path: Path, anc: Ancestor, f: Frame, more: seq<Ancestor>, chain: Path)
    requires Along(ancestors, path) && Along(more, chain) && anc == Ancestor(f.node.obj, f.index)
    ensures Along(ancestors + [anc] + more, path + [f] + chain)
  {
    var a, p := ancestors + [anc] + more, path + [f] + chain;
    forall k | 0 <= k < |p| ensures a[k] == Ancestor(p[k].node.obj, p[k].index) {
      if k > |path| {
        assert a[k] == more[k - |path| - 1] && p[k] == chain[k - |path| - 1];
      }
    }
  }

  lemma {:induction false} ChildInHeap(t: Tree, i: nat, h: nat, order: nat)
    requires Rep(t) && Kids(t, h, order) && h >= 1 && i <= |t.contents|
    ensures IsBranch(t) && Shaped(t) && t.obj.children == Roots(t.children)
    ensures i < |t.children| && Rep(t.children[i]) && Good(t.children[i], h - 1, order)
  {
    RepIs(t);
  }

  lemma NodeInHeap(path: Path, t: Tree)
    requires IsPath(path) && Placed(path, t)
    ensures t.obj.contents == t.contents && t.obj.children == Roots(t.children)
  {
    RepIs(t);
  }

  /** The search goes one level down. */
  lemma StepDown(ancestors: seq<Ancestor>, path: Path, t: Tree, i: nat)
    requires IsPath(path) && IsBranch(t) && i < |t.children| && Placed(path, t) && Along(ancestors, path)
    ensures IsPath(path + [Frame(t, i)]) && Placed(path + [Frame(t, i)], t.children[i])
    ensures Along(ancestors + [Ancestor(t.obj, i)], path + [Frame(t, i)])
    ensures TopOf(path + [Frame(t, i)], t.children[i]) == TopOf(path, t)
    ensures Objs(t.children[i]) + PathObjs(path + [Frame(t, i)]) == Objs(t) + PathObjs(path)
  {
    hide Placed, Objs, PathObjs;
    var f := Frame(t, i);
    assert path + [f] + [] == path + [f] && ancestors + [Ancestor(t.obj, i)] + [] == ancestors + [Ancestor(t.obj, i)];
    assert Plug([], t.children[i]) == t.children[i];
    Deepen(path, t, i, [], t.children[i]);
    AlongThrough(ancestors, path, Ancestor(t.obj, i), f, [], []);
  }

  /** Down the first children to a leaf. */
  method Leftmost(node: BNode, ghost t: Tree, ghost h: nat, ghost order: nat)
    returns (more: seq<Ancestor>, leaf: BNode, ghost chain: Path, ghost lt: Tree)
    requires Rep(t) && t.obj == node && Good(t, h, order)
    ensures |chain| == h && GoodChain(chain, 0, order) && IsPath(chain) && Along(more, chain)
    ensures Good(lt, 0, order) && lt.obj == leaf && lt.contents == leaf.contents && Plug(chain, lt) == t
    ensures LeftOf(chain) == [] && Items(lt) + RightOf(chain) == Items(t)
    ensures |more| == h && leaf.children == [] && leaf.contents <= Items(t)
  {
    hide Items, Before, After, GoodChain, IsPath, Rep, Objs, Good, Plug, LeftOf, RightOf;
    ChainStart(h, order);
    more, leaf, chain, lt := [], node, [], t;
    ghost var height := h;
    PlugNothing(t);
    RepIs(lt);
    while leaf.children != []
      invariant |chain| + height == h && Good(lt, height, order) && Rep(lt) && lt.obj == leaf
      invariant leaf.contents == lt.contents && leaf.children == Roots(lt.children)
      invariant GoodChain(chain, height, order) && IsPath(chain) && Along(more, chain) && Plug(chain, lt) == t
      invariant LeftOf(chain) == [] && Items(lt) + RightOf(chain) == Items(t)
      decreases height
    {
      FirstAndLast(lt, height, order);
      ChainLonger(chain, Frame(lt, 0), height - 1, order);
      PlugDown(chain, lt, 0);
      OneMoreAncestor(more, chain, leaf, lt, 0);
      more, chain := more + [Ancestor(leaf, 0)], chain + [Frame(lt, 0)];
      leaf, lt := leaf.children[0], lt.children[0];
      height := height - 1;
      RepIs(lt);
    }
    NoChildren(lt, height, order);
    ItemsOfLeaf(lt);
  }

  predicate EndsWith(s: seq<int>, t: seq<int>) {
    |t| <= |s| && s[|s| - |t|..] == t
  }

  /** Down the last children to a leaf. */
  method Rightmost(node: BNode, ghost t: Tree, ghost h: nat, ghost order: nat)
    returns (more: seq<Ancestor>, leaf: BNode, ghost chain: Path, ghost lt: Tree)
    requires Rep(t) && t.obj == node && Good(t, h, order)
    ensures |chain| == h && GoodChain(chain, 0, order) && IsPath(chain) && Along(more, chain)
    ensures Good(lt, 0, order) && lt.obj == leaf && lt.contents == leaf.contents && Plug(chain, lt) == t
    ensures RightOf(chain) == [] && LeftOf(chain) + Items(lt) == Items(t)
    ensures |more| == h && leaf.children == [] && EndsWith(Items(t), leaf.contents)
  {
    hide Items, Before, After, GoodChain, IsPath, Rep, Objs, Good, Plug, LeftOf, RightOf;
    ChainStart(h, order);
    more, leaf, chain, lt := [], node, [], t;
    ghost var height := h;
    PlugNothing(t);
    RepIs(lt);
    while leaf.children != []
      invariant |chain| + height == h && Good(lt, height, order) && Rep(lt) && lt.obj == leaf
      invariant leaf.contents == lt.contents && leaf.children == Roots(lt.children)
      invariant GoodChain(chain, height, order) && IsPath(chain) && Along(more, chain) && Plug(chain, lt) == t
      invariant RightOf(chain) == [] && LeftOf(chain) + Items(lt) == Items(t)
      decreases height
    {
      FirstAndLast(lt, height, order);
      var last := |leaf.children| - 1;
      ChainLonger(chain, Frame(lt, last), height - 1, order);
      PlugDown(chain, lt, last);
      OneMoreAncestor(more, chain, leaf, lt, last);
      more, chain := more + [Ancestor(leaf, last)], chain + [Frame(lt, last)];
      leaf, lt := leaf.children[last], lt.children[last];
      height := height - 1;
      RepIs(lt);
    }
    NoChildren(lt, height, order);
    ItemsOfLeaf(lt);
  }

  lemma PlugNothing(t: Tree)
    ensures IsPath([]) && Plug([], t) == t && Along([], [])
  {}

  lemma OneMoreAncestor(more: seq<Ancestor>, chain: Path, node: BNode, t: Tree, i: nat)
    requires Along(more, chain) && t.obj == node
    ensures Along(more + [Ancestor(node, i)], chain + [Frame(t, i)])
  {}

  lemma {:induction false} PlugDown(chain: Path, t: Tree, i: nat)
    requires IsPath(chain) && IsBranch(t) && i < |t.children|
    ensures IsPath(chain + [Frame(t, i)]) && Plug(chain + [Frame(t, i)], t.children[i]) == Plug(chain, t)
    ensures Rep(t) ==> Rep(t.children[i])
  {
    hide Rep;
    var f := Frame(t, i);
    assert (chain + [f])[..|chain|] == chain;
    assert t.children[i := t.children[i]] == t.children;
    KidRep(t, i);
  }

  lemma KidRep(t: Tree, i: nat)
    requires i < |t.children|
    ensures Rep(t) ==> Rep(t.children[i])
  {}
}
