/**
  How the trees of BTreeNodes lie in the heap: every node object holds the lists that its tree
  says, and no object occurs twice.
 */
module BTreeHeap {

  import opened BTreeNodes

  // ---------------------------------------------------------------------
  // Objects
  // ---------------------------------------------------------------------

  function Objs(t: Tree): set<BNode> {
    {t.obj} + set i, o | 0 <= i < |t.children| && o in Objs(t.children[i]) :: o
  }

  function KidObjs(ts: seq<Tree>): set<BNode> {
    set i, o | 0 <= i < |ts| && o in Objs(ts[i]) :: o
  }

  lemma ObjsAre(t: Tree)
    ensures Objs(t) == {t.obj} + KidObjs(t.children)
  {}

  lemma KidObjsAt(ts: seq<Tree>, i: nat)
    requires i < |ts|
    ensures Objs(ts[i]) <= KidObjs(ts) && ts[i].obj in KidObjs(ts)
  {}

  lemma KidObjsJoin(ts: seq<Tree>, us: seq<Tree>)
    ensures KidObjs(ts + us) == KidObjs(ts) + KidObjs(us)
  {
    var vs := ts + us;
    forall o | o in KidObjs(ts) + KidObjs(us) ensures o in KidObjs(vs) {
      if i :| 0 <= i < |ts| && o in Objs(ts[i]) {
        assert o in Objs(vs[i]);
      } else {
        var i :| 0 <= i < |us| && o in Objs(us[i]);
        assert o in Objs(vs[|ts| + i]);
      }
    }
  }

  /** No object occurs twice in the tree. */
  ghost predicate Sep(t: Tree) {
    && (forall i :: 0 <= i < |t.children| ==> t.obj !in Objs(t.children[i]) && Sep(t.children[i]))
    && (forall i, j :: 0 <= i < j < |t.children| ==> Objs(t.children[i]) !! Objs(t.children[j]))
  }

  ghost predicate SepKids(ts: seq<Tree>) {
    && (forall i :: 0 <= i < |ts| ==> Sep(ts[i]))
    && (forall i, j :: 0 <= i < j < |ts| ==> Objs(ts[i]) !! Objs(ts[j]))
  }

  lemma SepIs(t: Tree)
    ensures Sep(t) <==> SepKids(t.children) && t.obj !in KidObjs(t.children)
  {
    if t.obj !in KidObjs(t.children) {
      assert forall i :: 0 <= i < |t.children| ==> t.obj !in Objs(t.children[i]);
    }
  }

  lemma SepKidsJoin(ts: seq<Tree>, us: seq<Tree>)
    ensures SepKids(ts + us) <==> SepKids(ts) && SepKids(us) && KidObjs(ts) !! KidObjs(us)
  {
    var vs := ts + us;
    assert forall i :: 0 <= i < |ts| ==> vs[i] == ts[i];
    assert forall i :: 0 <= i < |us| ==> vs[|ts| + i] == us[i];
    if SepKids(vs) {
      forall i, j | 0 <= i < |ts| && 0 <= j < |us| ensures Objs(ts[i]) !! Objs(us[j]) {
        assert Objs(vs[i]) !! Objs(vs[|ts| + j]);
      }
      forall i, j | 0 <= i < j < |us| ensures Objs(us[i]) !! Objs(us[j]) {
        assert Objs(vs[|ts| + i]) !! Objs(vs[|ts| + j]);
      }
    }
    if SepKids(ts) && SepKids(us) && KidObjs(ts) !! KidObjs(us) {
      forall i, j | 0 <= i < j < |vs| ensures Objs(vs[i]) !! Objs(vs[j]) {
        if i < |ts| <= j {
          KidObjsAt(ts, i);
          KidObjsAt(us, j - |ts|);
        } else if i >= |ts| {
          assert Objs(us[i - |ts|]) !! Objs(us[j - |ts|]);
        }
      }
    }
  }

  /** The root objects of some trees. */
  function Roots(ts: seq<Tree>): (r: seq<BNode>)
    ensures |r| == |ts| && forall i :: 0 <= i < |ts| ==> r[i] == ts[i].obj
  {
    seq(|ts|, i requires 0 <= i < |ts| => ts[i].obj)
  }

  /** Every object of the tree holds what the tree says. */
  ghost predicate Rep(t: Tree)
    reads Objs(t)
  {
    && t.obj.contents == t.contents
    && t.obj.children == Roots(t.children)
    && forall i :: 0 <= i < |t.children| ==> Rep(t.children[i])
  }

  ghost predicate RepKids(ts: seq<Tree>)
    reads KidObjs(ts)
  {
    forall i :: 0 <= i < |ts| ==> Rep(ts[i])
  }

  lemma RepIs(t: Tree)
    ensures Rep(t) <==> t.obj.contents == t.contents && t.obj.children == Roots(t.children) && RepKids(t.children)
  {}

  lemma RepKidsJoin(ts: seq<Tree>, us: seq<Tree>)
    ensures RepKids(ts + us) <==> RepKids(ts) && RepKids(us)
    ensures Roots(ts + us) == Roots(ts) + Roots(us)
  {
    var vs := ts + us;
    assert forall i :: 0 <= i < |ts| ==> vs[i] == ts[i];
    assert forall i :: 0 <= i < |us| ==> vs[|ts| + i] == us[i];
    if RepKids(vs) {
      forall i | 0 <= i < |us| ensures Rep(us[i]) {
        assert Rep(vs[|ts| + i]);
      }
    }
  }

  // ---------------------------------------------------------------------
  // Paths in the heap
  // ---------------------------------------------------------------------

  /** The children beside the path. */
  function Beside(f: Frame): (ts: seq<Tree>)
    requires f.index < |f.node.children|
  {
    f.node.children[..f.index] + f.node.children[f.index + 1..]
  }

  function FrameObjs(f: Frame): set<BNode>
    requires f.index < |f.node.children|
  {
    {f.node.obj} + KidObjs(Beside(f))
  }

  function PathObjs(path: Path): set<BNode>
    requires IsPath(path)
  {
    set k, o | 0 <= k < |path| && o in FrameObjs(path[k]) :: o
  }

  ghost predicate SepPath(path: Path)
    requires IsPath(path)
  {
    && (forall k :: 0 <= k < |path| ==> SepKids(Beside(path[k])) && path[k].node.obj !in KidObjs(Beside(path[k])))
    && (forall j, k :: 0 <= j < k < |path| ==> FrameObjs(path[j]) !! FrameObjs(path[k]))
  }

  /** The object of a frame holds what the frame says, with `o` as the child in its place. */
  ghost predicate RepFrame(f: Frame, o: BNode)
    requires f.index < |f.node.children|
    reads FrameObjs(f)
  {
    && f.node.obj.contents == f.node.contents
    && f.node.obj.children == Roots(f.node.children)[f.index := o]
    && RepKids(Beside(f))
  }

  /** The object below frame `k`. */
  function ChildOf(path: Path, k: nat, o: BNode): BNode
    requires k < |path|
  {
    if k == |path| - 1 then o else path[k + 1].node.obj
  }

  /** The objects of the path hold what it says, and `o` is the child in the last frame's place. */
  ghost predicate RepPath(path: Path, o: BNode)
    requires IsPath(path)
    reads PathObjs(path)
  {
    forall k :: 0 <= k < |path| ==> RepFrame(path[k], ChildOf(path, k, o))
  }

  /** A tree at the end of a path, both in the heap and apart. */
  ghost predicate Placed(path: Path, t: Tree)
    requires IsPath(path)
    reads Objs(t), PathObjs(path)
  {
    && Rep(t) && RepPath(path, t.obj)
    && Sep(t) && SepPath(path) && Objs(t) !! PathObjs(path)
  }

  lemma FrameInPath(path: Path, k: nat)
    requires IsPath(path) && k < |path|
    ensures FrameObjs(path[k]) <= PathObjs(path)
  {}

  lemma LastFrame(path: Path, o: BNode)
    requires IsPath(path) && path != []
    ensures IsPath(path[..|path| - 1])
    ensures var f, up := path[|path| - 1], path[..|path| - 1];
      && PathObjs(path) == PathObjs(up) + FrameObjs(f)
      && (SepPath(path) <==> (
        && SepKids(Beside(f)) && f.node.obj !in KidObjs(Beside(f))
        && SepPath(up) && FrameObjs(f) !! PathObjs(up)))
      && (RepPath(path, o) <==> RepFrame(f, o) && RepPath(up, f.node.obj))
  {
    hide FrameObjs, SepKids, KidObjs, Beside, RepFrame;
    var n := |path| - 1;
    var f, up := path[n], path[..n];
    assert forall k :: 0 <= k < n ==> up[k] == path[k];
    forall o | o in PathObjs(up) + FrameObjs(f) ensures o in PathObjs(path) {
      if k :| 0 <= k < n && o in FrameObjs(up[k]) {
        assert o in FrameObjs(path[k]);
      } else {
        assert o in FrameObjs(path[n]);
      }
    }
    if SepPath(path) {
      assert SepPath(up) by {
        forall j, k | 0 <= j < k < n ensures FrameObjs(up[j]) !! FrameObjs(up[k]) {
          assert FrameObjs(path[j]) !! FrameObjs(path[k]);
        }
      }
      forall o | o in PathObjs(up) ensures o !in FrameObjs(f) {
        var k :| 0 <= k < n && o in FrameObjs(up[k]);
        assert FrameObjs(path[k]) !! FrameObjs(path[n]);
      }
    }
    if SepPath(up) && SepKids(Beside(f)) && f.node.obj !in KidObjs(Beside(f)) && FrameObjs(f) !! PathObjs(up) {
      forall j, k | 0 <= j < k < |path| ensures FrameObjs(path[j]) !! FrameObjs(path[k]) {
        if k == n {
          FrameInPath(up, j);
        } else {
          assert FrameObjs(up[j]) !! FrameObjs(up[k]);
        }
      }
    }
    RepLast(path, o);
  }

  lemma RepLast(path: Path, o: BNode)
    requires IsPath(path) && path != [] && IsPath(path[..|path| - 1])
    ensures var f, up := path[|path| - 1], path[..|path| - 1];
      RepPath(path, o) <==> RepFrame(f, o) && RepPath(up, f.node.obj)
  {
    hide RepFrame;
    var n := |path| - 1;
    var f, up := path[n], path[..n];
    assert forall k :: 0 <= k < n ==> up[k] == path[k];
    forall k | 0 <= k < n ensures ChildOf(up, k, f.node.obj) == ChildOf(path, k, o) {
      if k < n - 1 {
        assert up[k + 1] == path[k + 1];
      }
    }
    if RepFrame(f, o) && RepPath(up, f.node.obj) {
      forall k | 0 <= k < |path| ensures RepFrame(path[k], ChildOf(path, k, o)) {
        if k < n {
          assert RepFrame(up[k], ChildOf(up, k, f.node.obj));
        }
      }
    }
    if RepPath(path, o) {
      assert RepFrame(path[n], ChildOf(path, n, o));
      forall k | 0 <= k < n ensures RepFrame(up[k], ChildOf(up, k, f.node.obj)) {
        assert RepFrame(path[k], ChildOf(path, k, o));
      }
    }
  }

  lemma PutKids(f: Frame, t: Tree)
    requires IsFrame(f)
    ensures Put(f, t).children == f.node.children[..f.index] + [t] + f.node.children[f.index + 1..]
    ensures KidObjs(Put(f, t).children) == KidObjs(Beside(f)) + Objs(t)
    ensures SepKids(Put(f, t).children) <==> SepKids(Beside(f)) && Sep(t) && KidObjs(Beside(f)) !! Objs(t)
    ensures RepKids(Put(f, t).children) <==> RepKids(Beside(f)) && Rep(t)
    ensures Roots(Put(f, t).children) == Roots(f.node.children)[f.index := t.obj]
  {
    hide Objs, Sep, Rep, KidObjs, SepKids, RepKids;
    var a, b := f.node.children[..f.index], f.node.children[f.index + 1..];
    assert Put(f, t).children == a + [t] + b;
    OneKid(t);
    KidObjsJoin(a + [t], b);
    KidObjsJoin(a, [t]);
    KidObjsJoin(a, b);
    SepKidsJoin(a + [t], b);
    SepKidsJoin(a, [t]);
    SepKidsJoin(a, b);
    RepKidsJoin(a + [t], b);
    RepKidsJoin(a, [t]);
    RepKidsJoin(a, b);
  }

  lemma OneKid(t: Tree)
    ensures KidObjs([t]) == Objs(t) && (SepKids([t]) <==> Sep(t)) && (RepKids([t]) <==> Rep(t)) && Roots([t]) == [t.obj]
  {
    assert [t][0] == t;
  }

  /** The same tree, seen from one level up. */
  lemma OneLevelUp(path: Path, t: Tree)
    requires IsPath(path) && path != []
    ensures IsPath(path[..|path| - 1])
    ensures Placed(path, t) <==> Placed(path[..|path| - 1], Put(path[|path| - 1], t))
    ensures Objs(Put(path[|path| - 1], t)) == Objs(t) + FrameObjs(path[|path| - 1])
    ensures PathObjs(path) == PathObjs(path[..|path| - 1]) + FrameObjs(path[|path| - 1])
  {
    hide Objs, Sep, Rep, KidObjs, SepKids, RepKids, Beside, PathObjs, SepPath, RepPath;
    var f := path[|path| - 1];
    var u := Put(f, t);
    LastFrame(path, t.obj);
    PutKids(f, t);
    ObjsAre(u);
    SepIs(u);
    RepIs(u);
  }

  /** At the root the whole tree is in the heap. */
  lemma {:induction false} PlugPlaced(path: Path, t: Tree)
    requires IsPath(path)
    ensures Placed(path, t) <==> Placed([], Plug(path, t))
    ensures Objs(Plug(path, t)) == Objs(t) + PathObjs(path)
  {
    hide Placed, Objs;
    if path != [] {
      OneLevelUp(path, t);
      PlugPlaced(path[..|path| - 1], Put(path[|path| - 1], t));
    }
  }
}
