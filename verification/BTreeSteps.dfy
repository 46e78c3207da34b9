/**
  The steps of multithread/btree/btree.py that move items between neighbouring nodes, done on
  the node objects in place.
 */
module BTreeSteps {

  import opened BTreeNodes
  import opened BTreeHeap

  // ---------------------------------------------------------------------
  // Two neighbouring children
  // ---------------------------------------------------------------------

  /** The children before and after the two at `i`. */
  function Ahead(u: Tree, i: nat): seq<Tree>
    requires i + 1 < |u.children|
  {
    u.children[..i]
  }

  function Behind(u: Tree, i: nat): seq<Tree>
    requires i + 1 < |u.children|
  {
    u.children[i + 2..]
  }

  lemma {:induction false} PairSep(x: Tree, y: Tree)
    ensures KidObjs([x, y]) == Objs(x) + Objs(y)
    ensures SepKids([x, y]) <==> Sep(x) && Sep(y) && Objs(x) !! Objs(y)
    ensures RepKids([x, y]) <==> Rep(x) && Rep(y)
    ensures Roots([x, y]) == [x.obj, y.obj]
  {
    hide Objs, KidObjs, Sep, SepKids, Rep, RepKids;
    assert [x, y] == [x] + [y];
    OneKid(x);
    OneKid(y);
    KidObjsJoin([x], [y]);
    SepKidsJoin([x], [y]);
    RepKidsJoin([x], [y]);
  }

  /** A node as its object, the children ahead, some in the middle, and the children behind. */
  lemma Around(u: Tree, a: seq<Tree>, m: seq<Tree>, b: seq<Tree>)
    requires u.children == a + m + b
    ensures Objs(u) == {u.obj} + KidObjs(a) + KidObjs(m) + KidObjs(b)
    ensures Sep(u) <==> (
      && SepKids(a) && SepKids(m) && SepKids(b)
      && KidObjs(a) !! KidObjs(m) && KidObjs(a) !! KidObjs(b) && KidObjs(m) !! KidObjs(b)
      && u.obj !in KidObjs(a) && u.obj !in KidObjs(m) && u.obj !in KidObjs(b))
    ensures Rep(u) <==> (
      && u.obj.contents == u.contents && u.obj.children == Roots(a) + Roots(m) + Roots(b)
      && RepKids(a) && RepKids(m) && RepKids(b))
  {
    hide Objs, KidObjs, Sep, SepKids, Rep, RepKids;
    ObjsAre(u);
    SepIs(u);
    RepIs(u);
    KidObjsJoin(a + m, b);
    KidObjsJoin(a, m);
    SepKidsJoin(a + m, b);
    SepKidsJoin(a, m);
    RepKidsJoin(a + m, b);
    RepKidsJoin(a, m);
  }

  /** What the objects of two neighbours and their parent are apart from. */
  lemma PairApart(u: Tree, i: nat)
    requires i + 1 < |u.children|
    ensures var x, y, a, b := u.children[i], u.children[i + 1], Ahead(u, i), Behind(u, i);
      && u.children == a + [x, y] + b
      && Objs(u) == {u.obj, x.obj, y.obj} + KidObjs(a) + KidObjs(x.children) + KidObjs(y.children) + KidObjs(b)
      && (Sep(u) ==> (
        && u.obj != x.obj && u.obj != y.obj && x.obj != y.obj
        && (forall o :: o in {u.obj, x.obj, y.obj} ==>
          o !in KidObjs(a) && o !in KidObjs(x.children) && o !in KidObjs(y.children) && o !in KidObjs(b))))
      && (Rep(u) ==> (
        && u.obj.contents == u.contents && u.obj.children == Roots(u.children)
        && u.obj.children[i] == x.obj && u.obj.children[i + 1] == y.obj
        && x.obj.contents == x.contents && x.obj.children == Roots(x.children) && RepKids(x.children)
        && y.obj.contents == y.contents && y.obj.children == Roots(y.children) && RepKids(y.children)
        && RepKids(a) && RepKids(b)))
  {
    hide Objs, KidObjs, Sep, SepKids, Rep, RepKids;
    var x, y, a, b := u.children[i], u.children[i + 1], Ahead(u, i), Behind(u, i);
    assert u.children == a + [x, y] + b;
    Around(u, a, [x, y], b);
    PairSep(x, y);
    ObjsAre(x);
    ObjsAre(y);
    SepIs(x);
    SepIs(y);
    RepIs(x);
    RepIs(y);
    RepIs(u);
  }

  /** Two neighbours exchange children in order: no object gets lost or doubled. */
  lemma ExchangeSep(u: Tree, i: nat, a: Tree, k: int, b: Tree)
    requires IsBranch(u) && i < |u.contents| && Sep(u)
    requires a.obj == u.children[i].obj && b.obj == u.children[i + 1].obj
    requires a.children + b.children == u.children[i].children + u.children[i + 1].children
    ensures Sep(Exchange(u, i, a, k, b)) && Objs(Exchange(u, i, a, k, b)) == Objs(u)
  {
    hide Objs, KidObjs, Sep, SepKids;
    var x, y, l, r := u.children[i], u.children[i + 1], Ahead(u, i), Behind(u, i);
    var v := Exchange(u, i, a, k, b);
    assert u.children == l + [x, y] + r;
    assert v.children == l + [a, b] + r;
    Around(u, l, [x, y], r);
    Around(v, l, [a, b], r);
    SameObjects(x, y, a, b);
  }

  lemma SameObjects(x: Tree, y: Tree, a: Tree, b: Tree)
    requires SepKids([x, y]) && a.obj == x.obj && b.obj == y.obj && a.children + b.children == x.children + y.children
    ensures SepKids([a, b]) && KidObjs([a, b]) == KidObjs([x, y])
  {
    hide Objs, KidObjs, Sep, SepKids;
    PairSep(x, y);
    PairSep(a, b);
    ObjsAre(x);
    ObjsAre(y);
    ObjsAre(a);
    ObjsAre(b);
    SepIs(x);
    SepIs(y);
    SepIs(a);
    SepIs(b);
    SepKidsJoin(x.children, y.children);
    SepKidsJoin(a.children, b.children);
    KidObjsJoin(x.children, y.children);
    KidObjsJoin(a.children, b.children);
  }

  lemma {:induction false} ExchangeRep(u: Tree, i: nat, a: Tree, k: int, b: Tree)
    requires IsBranch(u) && i < |u.contents|
    requires a.obj == u.children[i].obj && b.obj == u.children[i + 1].obj && Rep(a) && Rep(b)
    requires RepKids(Ahead(u, i)) && RepKids(Behind(u, i))
    requires u.obj.contents == u.contents[i := k] && u.obj.children == Roots(u.children)
    ensures Rep(Exchange(u, i, a, k, b))
  {
    hide Objs, KidObjs, Sep, SepKids, Rep, RepKids;
    var v, l, r := Exchange(u, i, a, k, b), Ahead(u, i), Behind(u, i);
    assert v.children == l + [a, b] + r;
    assert Roots(v.children) == Roots(u.children);
    PairSep(a, b);
    Around(v, l, [a, b], r);
    RepKidsJoin(l + [a, b], r);
    RepKidsJoin(l, [a, b]);
  }

  /** A tree whose object holds what it says and whose children are in the heap. */
  lemma IsRep(t: Tree)
    requires t.obj.contents == t.contents && t.obj.children == Roots(t.children) && RepKids(t.children)
    ensures Rep(t)
  {}

  /**
    _BNode.lateral towards the left neighbour: its new last item comes from the parent, the
    parent's from the first of the node.
   */
  method LateralLeft(parent: BNode, i: nat, ghost u: Tree, ghost h: nat, ghost order: nat)
    returns (ghost a: Tree, ghost k: int, ghost b: Tree)
    requires Rep(u) && Sep(u) && u.obj == parent && IsBranch(u) && i < |u.contents|
    requires Kids(u.children[i], h, order) && Kids(u.children[i + 1], h, order) && |u.children[i + 1].contents| > 0
    modifies Objs(u)
    ensures var v := Exchange(u, i, a, k, b); Rep(v) && Sep(v) && Objs(v) == Objs(u)
    ensures |a.contents| == |u.children[i].contents| + 1 && |b.contents| == |u.children[i + 1].contents| - 1
    ensures Kids(a, h, order) && Kids(b, h, order)
    ensures Items(a) + [k] + Items(b) == Items(u.children[i]) + [u.contents[i]] + Items(u.children[i + 1])
  {
    hide Objs, KidObjs, Sep, SepKids, Rep, RepKids, Items, Kids;
    PairApart(u, i);
    ghost var x, y := u.children[i], u.children[i + 1];
    a, k, b := LeftMoved(x, u.contents[i], y, h, order);
    ExchangeSep(u, i, a, k, b);
    RepKidsJoin(x.children, y.children);
    var dest, self := parent.children[i], parent.children[i + 1];
    dest.contents := dest.contents + [parent.contents[i]];
    parent.contents := parent.contents[i := self.contents[0]];
    self.contents := self.contents[1..];
    if self.children != [] {
      dest.children := dest.children + [self.children[0]];
      self.children := self.children[1..];
    }
    KidsOfBoth(x, y, a, b);
    IsRep(a);
    IsRep(b);
    ExchangeRep(u, i, a, k, b);
  }

  /** The trees of the two neighbours afterwards. */
  lemma {:induction false} LeftMoved(x: Tree, p: int, y: Tree, h: nat, order: nat) returns (a: Tree, k: int, b: Tree)
    requires Kids(x, h, order) && Kids(y, h, order) && |y.contents| > 0
    ensures a.obj == x.obj && b.obj == y.obj && a.children + b.children == x.children + y.children
    ensures k == y.contents[0] && a.contents == x.contents + [p] && b.contents == y.contents[1..]
    ensures y.children == [] ==> a.children == x.children && b.children == []
    ensures y.children != [] ==> a.children == x.children + [y.children[0]] && b.children == y.children[1..]
    ensures Kids(a, h, order) && Kids(b, h, order)
    ensures Items(a) + [k] + Items(b) == Items(x) + [p] + Items(y)
  {
    hide Items, Before, After, Good;
    var moved: seq<Tree> := if y.children == [] then [] else [y.children[0]];
    k := y.contents[0];
    a := Tree(x.obj, x.contents + [p], x.children + moved);
    b := Tree(y.obj, y.contents[1..], y.children[|moved|..]);
    var one := Tree(y.obj, [], moved);
    assert y == Join(one, k, b) by {
      assert y.contents == [] + [k] + y.contents[1..];
      assert y.children == moved + b.children;
    }
    assert a == Join(x, p, one) by {
      assert a.contents == x.contents + [p] + [];
    }
    KidsPart(one, k, b, h, order);
    KidsJoin(x, p, one, h, order);
    ItemsJoin(one, k, b);
    ItemsJoin(x, p, one);
  }

  lemma KidsOfBoth(x: Tree, y: Tree, a: Tree, b: Tree)
    requires a.children + b.children == x.children + y.children && RepKids(x.children) && RepKids(y.children)
    ensures RepKids(a.children) && RepKids(b.children)
    ensures Roots(a.children) + Roots(b.children) == Roots(x.children) + Roots(y.children)
  {
    hide Rep, RepKids, Objs, KidObjs;
    RepKidsJoin(x.children, y.children);
    RepKidsJoin(a.children, b.children);
  }

  /** _BNode.lateral towards the right neighbour. */
  method LateralRight(parent: BNode, i: nat, ghost u: Tree, ghost h: nat, ghost order: nat)
    returns (ghost a: Tree, ghost k: int, ghost b: Tree)
    requires Rep(u) && Sep(u) && u.obj == parent && IsBranch(u) && i < |u.contents|
    requires Kids(u.children[i], h, order) && Kids(u.children[i + 1], h, order) && |u.children[i].contents| > 0
    modifies Objs(u)
    ensures var v := Exchange(u, i, a, k, b); Rep(v) && Sep(v) && Objs(v) == Objs(u)
    ensures |a.contents| == |u.children[i].contents| - 1 && |b.contents| == |u.children[i + 1].contents| + 1
    ensures Kids(a, h, order) && Kids(b, h, order)
    ensures Items(a) + [k] + Items(b) == Items(u.children[i]) + [u.contents[i]] + Items(u.children[i + 1])
  {
    hide Objs, KidObjs, Sep, SepKids, Rep, RepKids, Items, Kids;
    PairApart(u, i);
    ghost var x, y := u.children[i], u.children[i + 1];
    a, k, b := RightMoved(x, u.contents[i], y, h, order);
    ExchangeSep(u, i, a, k, b);
    var self, dest := parent.children[i], parent.children[i + 1];
    var n := |self.contents|;
    dest.contents := [parent.contents[i]] + dest.contents;
    parent.contents := parent.contents[i := self.contents[n - 1]];
    self.contents := self.contents[..n - 1];
    if self.children != [] {
      var m := |self.children|;
      dest.children := [self.children[m - 1]] + dest.children;
      self.children := self.children[..m - 1];
    }
    KidsOfBoth(x, y, a, b);
    IsRep(a);
    IsRep(b);
    ExchangeRep(u, i, a, k, b);
  }

  lemma {:induction false} RightMoved(x: Tree, p: int, y: Tree, h: nat, order: nat) returns (a: Tree, k: int, b: Tree)
    requires Kids(x, h, order) && Kids(y, h, order) && |x.contents| > 0
    ensures a.obj == x.obj && b.obj == y.obj && a.children + b.children == x.children + y.children
    ensures var n, m := |x.contents|, |x.children|;
      && k == x.contents[n - 1] && a.contents == x.contents[..n - 1] && b.contents == [p] + y.contents
      && (x.children == [] ==> a.children == [] && b.children == y.children)
      && (x.children != [] ==> a.children == x.children[..m - 1] && b.children == [x.children[m - 1]] + y.children)
    ensures Kids(a, h, order) && Kids(b, h, order)
    ensures Items(a) + [k] + Items(b) == Items(x) + [p] + Items(y)
  {
    hide Items, Before, After, Good;
    var n, m := |x.contents|, |x.children|;
    var moved: seq<Tree> := if x.children == [] then [] else [x.children[m - 1]];
    k := x.contents[n - 1];
    a := Tree(x.obj, x.contents[..n - 1], x.children[..m - |moved|]);
    b := Tree(y.obj, [p] + y.contents, moved + y.children);
    hide Items, Kids;
    var one := Tree(x.obj, [], moved);
    assert x == Join(a, k, one) by {
      assert x.contents == x.contents[..n - 1] + [k] + [];
      assert x.children == a.children + moved;
    }
    assert b == Join(one, p, y).(obj := y.obj) by {
      assert b.contents == [] + [p] + y.contents;
    }
    KidsPart(a, k, one, h, order);
    KidsJoin(one, p, y, h, order);
    ItemsJoin(a, k, one);
    ItemsJoin(one, p, y);
    SameItems(b, Join(one, p, y), h, order);
  }

  /** Items and shape do not depend on the object. */
  lemma {:induction false} SameItems(a: Tree, b: Tree, h: nat, order: nat)
    requires a.contents == b.contents && a.children == b.children
    ensures Items(a) == Items(b) && (Kids(a, h, order) <==> Kids(b, h, order))
  {
    if IsBranch(a) {
      BeforeSame(a, b, |a.contents|);
    }
  }

  // ---------------------------------------------------------------------
  // Splitting a node
  // ---------------------------------------------------------------------

  /** _BNode.split: the node keeps what is before the median, the new sibling gets what is after it. */
  method Split(self: BNode, ghost t: Tree, ghost h: nat, order: nat)
    returns (sibling: BNode, median: int, ghost a: Tree, ghost b: Tree)
    requires Rep(t) && Sep(t) && t.obj == self
    requires order >= 2 && |t.contents| == order + 1 && Kids(t, h, order)
    modifies self
    ensures fresh(sibling) && a.obj == self && b.obj == sibling
    ensures Rep(a) && Rep(b) && Sep(a) && Sep(b)
    ensures Objs(a) !! Objs(b) && Objs(a) + Objs(b) == Objs(t) + {sibling}
    ensures Good(a, h, order) && Good(b, h, order)
    ensures Items(a) + [median] + Items(b) == Items(t)
  {
    hide Objs, KidObjs, Sep, SepKids, Rep, RepKids, Items, Kids, Good;
    NodeApart(t);
    ghost var all := Objs(t);
    assert allocated(all);
    var center := |self.contents| / 2;
    median := self.contents[center];
    if self.children == [] {
      sibling := new BNode(self.contents[center + 1..], []);
    } else {
      KidsAre(t, h, order);
      sibling := new BNode(self.contents[center + 1..], self.children[center + 1..]);
    }
    assert sibling !in all;
    a, b := Halves(t, center, sibling, h, order);
    RepKidsJoin(a.children, b.children);
    assert self.children == Roots(t.children);
    assert Roots(a.children + b.children) == Roots(t.children);
    assert RepKids(a.children + b.children);
    self.contents := self.contents[..center];
    if self.children != [] {
      self.children := self.children[..center + 1];
    }
    RepKidsJoin(a.children, b.children);
    IsRep(a);
    IsRep(b);
  }

  lemma {:induction false} KidsAre(t: Tree, h: nat, order: nat)
    requires Kids(t, h, order) && t.children != []
    ensures IsBranch(t) && h >= 1 && forall i :: 0 <= i < |t.children| ==> Good(t.children[i], h - 1, order)
  {
    hide Good;
  }

  lemma NodeApart(t: Tree)
    ensures Objs(t) == {t.obj} + KidObjs(t.children)
    ensures Sep(t) ==> SepKids(t.children) && t.obj !in KidObjs(t.children)
    ensures Rep(t) ==> t.obj.contents == t.contents && t.obj.children == Roots(t.children) && RepKids(t.children)
  {
    ObjsAre(t);
    SepIs(t);
    RepIs(t);
  }

  lemma {:induction false} Halves(t: Tree, center: nat, sibling: BNode, h: nat, order: nat) returns (a: Tree, b: Tree)
    requires Sep(t) && sibling !in Objs(t)
    requires order >= 2 && |t.contents| == order + 1 && center == |t.contents| / 2 && Kids(t, h, order)
    ensures var m := if t.children == [] then 0 else center + 1;
      && m <= |t.children|
      && a == Tree(t.obj, t.contents[..center], t.children[..m])
      && b == Tree(sibling, t.contents[center + 1..], t.children[m..])
    ensures a.children + b.children == t.children
    ensures Sep(a) && Sep(b) && Objs(a) !! Objs(b) && Objs(a) + Objs(b) == Objs(t) + {sibling}
    ensures Good(a, h, order) && Good(b, h, order)
    ensures Items(a) + [t.contents[center]] + Items(b) == Items(t)
  {
    hide Objs, KidObjs, Sep, SepKids, Items;
    var m := if t.children == [] then 0 else center + 1;
    if t.children != [] {
      KidsAre(t, h, order);
    }
    a := Tree(t.obj, t.contents[..center], t.children[..m]);
    b := Tree(sibling, t.contents[center + 1..], t.children[m..]);
    assert t == Join(a, t.contents[center], b);
    KidsPart(a, t.contents[center], b, h, order);
    ItemsJoin(a, t.contents[center], b);
    ObjsAre(t);
    ObjsAre(a);
    ObjsAre(b);
    SepIs(t);
    SepIs(a);
    SepIs(b);
    assert t.children == a.children + b.children;
    SepKidsJoin(a.children, b.children);
    KidObjsJoin(a.children, b.children);
  }

  /** The median and the sibling go into the parent. */
  method AddSibling(parent: BNode, i: nat, k: int, sibling: BNode, ghost u: Tree, ghost b: Tree) returns (ghost v: Tree)
    requires Rep(u) && Sep(u) && u.obj == parent && IsBranch(u) && i < |u.children|
    requires Rep(b) && Sep(b) && b.obj == sibling && Objs(b) !! Objs(u)
    modifies parent
    ensures v == Parted(u, i, u.children[i], k, b)
    ensures Rep(v) && Sep(v) && Objs(v) == Objs(u) + Objs(b)
  {
    hide Objs, KidObjs, Sep, SepKids, Rep, RepKids;
    ghost var a, l, r := u.children[i], u.children[..i], u.children[i + 1..];
    v := Parted(u, i, a, k, b);
    assert u.children == l + [a] + r;
    assert v.children == l + [a, b] + r;
    Around(u, l, [a], r);
    OneKid(a);
    PairSep(a, b);
    RepIs(u);
    assert Roots(u.children) == Roots(l) + [a.obj] + Roots(r);
    parent.contents := parent.contents[..i] + [k] + parent.contents[i..];
    parent.children := parent.children[..i + 1] + [sibling] + parent.children[i + 1..];
    PairSep(a, b);
    Around(v, l, [a, b], r);
  }

  // ---------------------------------------------------------------------
  // Consolidating two neighbours
  // ---------------------------------------------------------------------

  /** The left one of two neighbours takes over everything of the right one and the item between them. */
  method Consolidate(parent: BNode, i: nat, ghost u: Tree) returns (ghost v: Tree)
    requires Rep(u) && Sep(u) && u.obj == parent && IsBranch(u) && i < |u.contents|
    requires Alike(u.children[i], u.children[i + 1])
    modifies Objs(u)
    ensures v == Consolidated(u, i, Join(u.children[i], u.contents[i], u.children[i + 1]))
    ensures Rep(v) && Sep(v) && Objs(v) <= Objs(u)
  {
    hide Objs, KidObjs, Sep, SepKids, Rep, RepKids;
    PairApart(u, i);
    ghost var x, y, l, r := u.children[i], u.children[i + 1], Ahead(u, i), Behind(u, i);
    ghost var c := Join(x, u.contents[i], y);
    v := Consolidated(u, i, c);
    ConsolidatedSep(u, i);
    var left, right := parent.children[i], parent.children[i + 1];
    left.contents := left.contents + [parent.contents[i]] + right.contents;
    if left.children != [] {
      left.children := left.children + right.children;
    }
    parent.contents := parent.contents[..i] + parent.contents[i + 1..];
    parent.children := parent.children[..i + 1] + parent.children[i + 2..];
    RepKidsJoin(x.children, y.children);
    IsRep(c);
    OneKid(c);
    assert v.children == l + [c] + r;
    assert parent.children == Roots(l) + [c.obj] + Roots(r);
    Around(v, l, [c], r);
  }

  lemma ConsolidatedSep(u: Tree, i: nat)
    requires Sep(u) && IsBranch(u) && i < |u.contents|
    ensures var v := Consolidated(u, i, Join(u.children[i], u.contents[i], u.children[i + 1]));
      Sep(v) && Objs(v) <= Objs(u)
  {
    hide Objs, KidObjs, Sep, SepKids;
    var x, y, l, r := u.children[i], u.children[i + 1], Ahead(u, i), Behind(u, i);
    var c := Join(x, u.contents[i], y);
    var v := Consolidated(u, i, c);
    assert u.children == l + [x, y] + r;
    assert v.children == l + [c] + r;
    Around(u, l, [x, y], r);
    Around(v, l, [c], r);
    PairSep(x, y);
    OneKid(c);
    ObjsAre(x);
    ObjsAre(y);
    ObjsAre(c);
    SepIs(x);
    SepIs(y);
    SepIs(c);
    SepKidsJoin(x.children, y.children);
    KidObjsJoin(x.children, y.children);
  }
}
