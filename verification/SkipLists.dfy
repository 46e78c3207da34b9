/**
  The skip list of multithread/skiplist/skiplist.py. Ghost state lists the nodes of every
  level; the links of the nodes follow it.
 */
module SkipLists {

  class SkipNode {
    /** The head node's element is never looked at. */
    const elem: int
    var next: seq<SkipNode?>

    /** The length of `next`, which changes for the head only. */
    ghost const height: nat

    constructor (height: nat, elem: int)
      ensures this.elem == elem && |next| == height == this.height
    {
      this.elem := elem;
      this.height := height;
      next := seq(height, _ => null);
    }
  }

  type Level = seq<SkipNode>

  predicate ElemsIncrease(level: Level) {
    forall j, k :: 0 <= j < k < |level| ==> level[j].elem < level[k].elem
  }

  /** The first `k` nodes are smaller than `x`, the others are not. */
  predicate SplitAt(level: Level, k: nat, x: int) {
    && k <= |level|
    && (forall j :: 0 <= j < k ==> level[j].elem < x)
    && (forall j :: k <= j < |level| ==> level[j].elem >= x)
  }

  function Inserted(level: Level, k: nat, node: SkipNode): Level
    requires k <= |level|
  {
    level[..k] + [node] + level[k..]
  }

  function Removed(level: Level, k: nat): Level
    requires k < |level|
  {
    level[..k] + level[k + 1..]
  }

  /** The node before position `k` of a level, or the head. */
  function Prev(head: SkipNode, level: Level, k: nat): SkipNode
    requires k <= |level|
  {
    if k == 0 then head else level[k - 1]
  }

  function NodeAt(level: Level, k: nat): SkipNode?
    requires k <= |level|
  {
    if k < |level| then level[k] else null
  }

  /** The links at height `i` lead through the level and end after it. */
  ghost predicate Linked(head: SkipNode, level: Level, i: nat)
    reads head, level
  {
    && |head.next| > i && head !in level
    && (forall k :: 0 <= k < |level| ==> |level[k].next| > i)
    && (forall k: nat :: k <= |level| ==> Prev(head, level, k).next[i] == NodeAt(level, k))
  }

  /** The levels are increasing, and each has the nodes of level 0 that reach it. */
  ghost predicate Layered(levels: seq<Level>) {
    && (forall i :: 0 <= i < |levels| ==> ElemsIncrease(levels[i]))
    && (levels != [] ==> forall x :: x in levels[0] ==> 1 <= x.height <= |levels|)
    && (forall i :: 0 <= i < |levels| ==> forall x :: x in levels[i] ==> x in levels[0] && x.height > i)
    && (forall i :: 0 <= i < |levels| ==> forall x :: x in levels[0] && x.height > i ==> x in levels[i])
  }

  class SkipList {
    const head: SkipNode
    var len: nat
    var maxHeight: nat

    ghost var levels: seq<Level>

    ghost function Nodes(): set<SkipNode>
      reads this`levels
    {
      if levels == [] then {} else NodesOf(levels[0])
    }

    ghost function Elements(): set<int>
      reads this`levels
    {
      set x | x in Nodes() :: x.elem
    }

    ghost predicate Valid()
      reads this, head, Nodes()
    {
      Stacked() && Covered()
    }

    ghost predicate Stacked()
      reads this`levels, this`len, head, Nodes()
    {
      && head !in Nodes()
      && |head.next| == |levels|
      && Layered(levels)
      && (forall x :: x in Nodes() ==> |x.next| == x.height)
      && (forall i :: 0 <= i < |levels| ==> LinkedAt(i))
      && len == |Nodes()|
    }

    /** All levels that have nodes are below `maxHeight`. */
    ghost predicate Covered()
      reads this`levels, this`maxHeight
    {
      maxHeight <= |levels| && forall i :: maxHeight <= i < |levels| ==> levels[i] == []
    }

    ghost predicate LinkedAt(i: nat)
      requires i < |levels|
      reads this`levels, head, levels[i]
    {
      Linked(head, levels[i], i)
    }

    constructor ()
      ensures Valid() && Elements() == {} && fresh(head)
    {
      head := new SkipNode(0, 0);
      len, maxHeight, levels := 0, 0, [];
    }

    /** `update` has the node before the place of `elem` on every level in use. */
    ghost predicate Places(update: seq<SkipNode>, ks: seq<nat>, elem: int, from: nat)
      reads this`levels
    {
      && |update| == |ks| && |update| <= |levels|
      && forall i :: from <= i < |update| ==>
        SplitAt(levels[i], ks[i], elem) && update[i] == Prev(head, levels[i], ks[i])
    }

    /** Where the search stands when it comes down to level `i`. */
    ghost predicate Reached(x: SkipNode, i: nat, elem: int)
      reads this`levels
    {
      x == head || (levels != [] && x in levels[0] && x.height > i && x.elem < elem)
    }

    lemma Down(x: SkipNode, i: nat, elem: int) returns (k: nat)
      requires Valid() && i < |levels| && Reached(x, i, elem)
      ensures k <= |levels[i]| && x == Prev(head, levels[i], k)
      ensures forall j :: 0 <= j < k ==> levels[i][j].elem < elem
    {
      if x == head {
        k := 0;
      } else {
        assert x in levels[i];
        var j :| 0 <= j < |levels[i]| && levels[i][j] == x;
        k := j + 1;
        assert ElemsIncrease(levels[i]);
      }
    }

    lemma LinkOf(i: nat, k: nat)
      requires Valid() && i < |levels| && k <= |levels[i]|
      ensures var x := Prev(head, levels[i], k); |x.next| > i && x.next[i] == NodeAt(levels[i], k)
      ensures ElemsIncrease(levels[i])
    {
      assert LinkedAt(i);
    }

    lemma OnLevel(i: nat, k: nat, elem: int)
      requires Valid() && i < |levels| && SplitAt(levels[i], k, elem)
      ensures Reached(Prev(head, levels[i], k), i, elem)
    {
      if k > 0 {
        assert levels[i][k - 1] in levels[i];
      }
    }

    /** Along one level. */
    method Along(x0: SkipNode, i: nat, elem: int) returns (x: SkipNode, ghost k: nat)
      requires Valid() && i < |levels| && Reached(x0, i, elem)
      ensures SplitAt(levels[i], k, elem) && x == Prev(head, levels[i], k)
    {
      x := x0;
      k := Down(x, i, elem);
      LinkOf(i, k);
      hide Valid;
      while x.next[i] != null && x.next[i].elem < elem
        invariant k <= |levels[i]| && x == Prev(head, levels[i], k)
        invariant |x.next| > i && x.next[i] == NodeAt(levels[i], k)
        invariant forall j :: 0 <= j < k ==> levels[i][j].elem < elem
        decreases |levels[i]| - k
      {
        x := x.next[i];
        k := k + 1;
        LinkOf(i, k);
      }
    }

    method UpdateList(elem: int) returns (update: seq<SkipNode>, ghost ks: seq<nat>)
      requires Valid()
      ensures |update| == maxHeight && Places(update, ks, elem, 0)
    {
      update := seq(maxHeight, _ => head);
      ks := seq(maxHeight, _ => 0);
      var x := head;
      for i := maxHeight downto 0
        invariant |update| == |ks| == maxHeight <= |levels|
        invariant Places(update, ks, elem, i)
        invariant Reached(x, i, elem)
      {
        ghost var k;
        x, k := Along(x, i, elem);
        OnLevel(i, k, elem);
        update := update[i := x];
        ks := ks[i := k];
      }
    }

    /** The node with the element, if it is there. */
    method Find(elem: int, update: seq<SkipNode>, ghost ks: seq<nat>) returns (found: SkipNode?)
      requires Valid() && |update| == maxHeight && Places(update, ks, elem, 0)
      ensures found != null <==> elem in Elements()
      ensures found != null ==>
        levels != [] && ks != [] && ks[0] < |levels[0]| && levels[0][ks[0]] == found && found.elem == elem
    {
      if |update| > 0 {
        LinkOf(0, ks[0]);
        var candidate := update[0].next[0];
        if candidate != null && candidate.elem == elem {
          assert candidate in Nodes();
          return candidate;
        }
        Absent(levels[0], ks[0], elem);
      }
      found := null;
    }

    method Contains(elem: int) returns (present: bool)
      requires Valid()
      ensures present == (elem in Elements())
    {
      var update;
      ghost var ks;
      update, ks := UpdateList(elem);
      var found := Find(elem, update, ks);
      present := found != null;
    }

    /** The head gets the levels that a new node needs. */
    method Extend(height: nat)
      requires Stacked() && forall i :: maxHeight <= i < |levels| ==> levels[i] == []
      modifies head, this`levels
      ensures Stacked() && (forall i :: maxHeight <= i < |levels| ==> levels[i] == [])
      ensures |levels| == if height > old(|levels|) then height else old(|levels|)
      ensures Nodes() == old(Nodes())
    {
      while |head.next| < height
        invariant Stacked() && (forall i :: maxHeight <= i < |levels| ==> levels[i] == [])
        invariant |levels| >= old(|levels|) && (|levels| == old(|levels|) || |levels| <= height)
        invariant Nodes() == old(Nodes())
      {
        OneLevelMore();
      }
    }

    method OneLevelMore()
      requires Stacked()
      modifies head, this`levels
      ensures Stacked() && levels == old(levels) + [[]] && Nodes() == old(Nodes())
    {
      ghost var before := levels;
      head.next := head.next + [null];
      levels := levels + [[]];
      forall i | 0 <= i < |levels| ensures LinkedAt(i) {
        if i < |before| {
          assert old(LinkedAt(i));
        }
      }
    }

    /** Links `node` into one level; the other levels keep their links. */
    method LinkIn(node: SkipNode, i: nat, upd: SkipNode, ghost level: Level, ghost k: nat)
      requires Linked(head, level, i) && ElemsIncrease(level) && k <= |level|
      requires upd == Prev(head, level, k) && |node.next| > i && node !in level && node != head
      modifies node, upd
      ensures Linked(head, Inserted(level, k, node), i)
      ensures |node.next| == old(|node.next|) && |upd.next| == old(|upd.next|)
      ensures forall j :: 0 <= j < |node.next| && j != i ==> node.next[j] == old(node.next[j])
      ensures forall j :: 0 <= j < |upd.next| && j != i ==> upd.next[j] == old(upd.next[j])
    {
      ghost var after := Inserted(level, k, node);
      assert forall m: nat :: m <= |level| && m != k ==> Prev(head, level, m) != upd;
      node.next := node.next[i := upd.next[i]];
      upd.next := upd.next[i := node];
      forall m: nat | m <= |after| ensures Prev(head, after, m).next[i] == NodeAt(after, m) {
        if m <= k {
          assert Prev(head, after, m) == Prev(head, level, m);
        } else if m > k + 1 {
          assert Prev(head, after, m) == Prev(head, level, m - 1);
        }
      }
    }

    /** Takes the node at position `k` out of one level. */
    method UnlinkFrom(x: SkipNode, i: nat, upd: SkipNode, ghost level: Level, ghost k: nat)
      requires Linked(head, level, i) && ElemsIncrease(level) && k < |level| && level[k] == x
      requires upd == Prev(head, level, k)
      modifies upd
      ensures Linked(head, Removed(level, k), i)
      ensures |upd.next| == old(|upd.next|)
      ensures forall j :: 0 <= j < |upd.next| && j != i ==> upd.next[j] == old(upd.next[j])
    {
      ghost var after := Removed(level, k);
      assert forall m: nat :: m <= |level| && m != k ==> Prev(head, level, m) != upd;
      assert NodeAt(level, k) == x && Prev(head, level, k + 1) == x;
      upd.next := upd.next[i := x.next[i]];
      forall m: nat | m <= |after| ensures Prev(head, after, m).next[i] == NodeAt(after, m) {
        if m <= k {
          assert Prev(head, after, m) == Prev(head, level, m);
        } else {
          assert Prev(head, after, m) == Prev(head, level, m + 1);
        }
      }
    }

    /** One round of the loop of insert, on one level; the links of all other levels stay. */
    method LinkOne(node: SkipNode, i: nat, upd: SkipNode, ghost level: Level, ghost k: nat, ghost rest: seq<Level>)
      requires Linked(head, level, i) && ElemsIncrease(level) && k <= |level|
      requires upd == Prev(head, level, k) && |node.next| > i && node !in level && node != head
      requires forall j :: 0 <= j < |rest| && j != i ==> Linked(head, rest[j], j)
      modifies node, upd
      ensures Linked(head, Inserted(level, k, node), i)
      ensures forall j :: 0 <= j < |rest| && j != i ==> Linked(head, rest[j], j)
      ensures |node.next| == old(|node.next|) && |upd.next| == old(|upd.next|)
    {
      LinkIn(node, i, upd, level, k);
      forall j | 0 <= j < |rest| && j != i ensures Linked(head, rest[j], j) {
        assert old(Linked(head, rest[j], j));
      }
    }

    /** The loop of insert: links the node into the levels below its height. */
    method LinkAll(node: SkipNode, update: seq<SkipNode>, ghost lv: seq<Level>, ghost ks: seq<nat>,
        ghost after: seq<Level>, ghost all: set<SkipNode>)
      requires forall j :: 0 <= j < |lv| ==>
        Linked(head, lv[j], j) && ElemsIncrease(lv[j]) && node !in lv[j] && InAll(lv[j], all)
      requires head in all && node in all && node != head
      requires |node.next| <= |update| == |ks| <= |lv| == |after|
      requires forall j :: 0 <= j < |update| ==> ks[j] <= |lv[j]| && update[j] == Prev(head, lv[j], ks[j])
      requires forall j :: 0 <= j < |lv| ==> after[j] == if j < |node.next| then Inserted(lv[j], ks[j], node) else lv[j]
      modifies all
      ensures forall j :: 0 <= j < |lv| ==> Linked(head, after[j], j)
      ensures forall x :: x in all ==> |x.next| == old(|x.next|)
    {
      hide Linked, ElemsIncrease, Inserted, Prev, InAll;
      ghost var mixed := lv;
      for i := 0 to |node.next|
        invariant forall x :: x in all ==> |x.next| == old(|x.next|)
        invariant |mixed| == |lv| && forall j :: 0 <= j < |lv| ==> mixed[j] == if j < i then after[j] else lv[j]
        invariant forall j :: 0 <= j < |lv| ==> Linked(head, mixed[j], j)
      {
        PrevIn(head, lv[i], ks[i], all);
        LinkOne(node, i, update[i], lv[i], ks[i], mixed);
        mixed := mixed[i := after[i]];
      }
    }

    lemma StackedFacts(all: set<SkipNode>)
      requires Stacked() && Nodes() + {head} <= all
      ensures forall j :: 0 <= j < |levels| ==> Linked(head, levels[j], j) && ElemsIncrease(levels[j])
      ensures forall j :: 0 <= j < |levels| ==> InAll(levels[j], all)
      ensures forall j, x :: 0 <= j < |levels| && x in levels[j] ==> x in Nodes()
    {
      forall j | 0 <= j < |levels| ensures Linked(head, levels[j], j) && ElemsIncrease(levels[j]) {
        assert LinkedAt(j);
      }
      forall j, x | 0 <= j < |levels| && x in levels[j] ensures x in Nodes() {
        assert x in levels[0];
      }
    }

    /** A new node takes its place on every level below its height. */
    method AddNode(node: SkipNode, update: seq<SkipNode>, ghost ks: seq<nat>)
      requires Stacked() && node !in Nodes() && node != head && 1 <= |node.next| == node.height <= |update| <= |levels|
      requires Places(update, ks, node.elem, 0) && node.elem !in Elements()
      modifies this`len, this`levels, head, Nodes(), node
      ensures Stacked() && Nodes() == old(Nodes()) + {node}
      ensures |levels| == old(|levels|) && forall i :: node.height <= i < |levels| ==> levels[i] == old(levels)[i]
    {
      hide Layered, Linked, ElemsIncrease, SplitAt, Inserted, Prev, InAll;
      ghost var all := Nodes() + {head, node};
      StackedFacts(all);
      AddFacts(node, update, ks);
      ghost var after := InsertedBelow(levels, ks, node.height, node);
      LayeredAfter(node, update, ks);
      LinkAll(node, update, levels, ks, after, all);
      SetLevels(after, len + 1, old(Nodes()) + {node});
    }

    /** The ghost levels and the length after a change of the links. */
    method SetLevels(ghost after: seq<Level>, newLen: nat, ghost nodes: set<SkipNode>)
      requires |head.next| == |after| > 0 && Layered(after) && newLen == |nodes| && head !in nodes
      requires nodes == NodesOf(after[0])
      requires forall x :: x in nodes ==> |x.next| == x.height
      requires forall i :: 0 <= i < |after| ==> Linked(head, after[i], i)
      modifies this`levels, this`len
      ensures Stacked() && levels == after && Nodes() == nodes
    {
      hide Layered, Linked;
      levels := after;
      len := newLen;
      assert Nodes() == nodes;
      assert forall i :: 0 <= i < |levels| ==> LinkedAt(i);
    }

    /** The levels with the new node are layered again. */
    lemma LayeredAfter(node: SkipNode, update: seq<SkipNode>, ks: seq<nat>)
      requires Stacked() && node !in Nodes() && 1 <= node.height <= |update| <= |levels|
      requires Places(update, ks, node.elem, 0) && node.elem !in Elements()
      ensures |ks| == |update| && forall j :: 0 <= j < node.height ==> ks[j] <= |levels[j]|
      ensures var after := InsertedBelow(levels, ks, node.height, node);
        Layered(after) && NodesOf(after[0]) == Nodes() + {node}
    {
      hide Layered, Linked, ElemsIncrease, SplitAt, Inserted, Prev;
      AddFacts(node, update, ks);
      var after := InsertedBelow(levels, ks, node.height, node);
      AfterInsert(levels, ks, node.height, node);
      assert NodesOf(after[0]) == Nodes() + {node};
      LayeredAgain(levels, after, node);
    }

    lemma AddFacts(node: SkipNode, update: seq<SkipNode>, ks: seq<nat>)
      requires Stacked() && node !in Nodes() && |update| <= |levels|
      requires Places(update, ks, node.elem, 0) && node.elem !in Elements()
      ensures forall j :: 0 <= j < |levels| ==> ElemsIncrease(levels[j]) && node !in levels[j]
      ensures forall j, x :: 0 <= j < |levels| && x in levels[j] ==> x.elem != node.elem
      ensures |ks| == |update|
      ensures forall j :: 0 <= j < |update| ==>
        SplitAt(levels[j], ks[j], node.elem) && ks[j] <= |levels[j]| && update[j] == Prev(head, levels[j], ks[j])
    {
      hide Linked;
      forall j, x | 0 <= j < |levels| && x in levels[j] ensures x in Nodes() && x.elem in Elements() {
        assert x in levels[0];
      }
    }

    /** `maxHeight` and the head's links grow to the height of a new node. */
    method MakeRoom(height: nat)
      requires Valid()
      modifies head, this`levels, this`maxHeight
      ensures Valid() && Nodes() == old(Nodes()) && height <= maxHeight
    {
      hide Layered, Linked;
      maxHeight := if height > maxHeight then height else maxHeight;
      Extend(height);
    }

    method Insert(elem: int, height: nat)
      requires Valid() && height >= 1
      modifies this, head, Nodes()
      ensures Valid() && fresh(Nodes() - old(Nodes()))
      ensures Elements() == old(Elements()) + {elem}
      ensures elem in old(Elements()) ==> Nodes() == old(Nodes())
    {
      hide Layered, Linked, Stacked;
      var node := new SkipNode(height, elem);
      MakeRoom(height);
      var update;
      ghost var ks;
      update, ks := UpdateList(elem);
      var found := Find(elem, update, ks);
      if found == null {
        AddNode(node, update, ks);
      }
    }

    /** One round of the loop of remove, on one level. */
    method UnlinkOne(x: SkipNode, i: nat, upd: SkipNode, ghost level: Level, ghost k: nat, ghost rest: seq<Level>)
      requires Linked(head, level, i) && ElemsIncrease(level) && k < |level| && level[k] == x
      requires upd == Prev(head, level, k)
      requires forall j :: 0 <= j < |rest| && j != i ==> Linked(head, rest[j], j)
      modifies upd
      ensures Linked(head, Removed(level, k), i)
      ensures forall j :: 0 <= j < |rest| && j != i ==> Linked(head, rest[j], j)
      ensures |upd.next| == old(|upd.next|)
    {
      UnlinkFrom(x, i, upd, level, k);
      forall j | 0 <= j < |rest| && j != i ensures Linked(head, rest[j], j) {
        assert old(Linked(head, rest[j], j));
      }
    }

    lemma FirstLink(level: Level, i: nat)
      requires Linked(head, level, i)
      ensures |head.next| > i && (head.next[i] == null <==> level == [])
      ensures forall x :: x in level ==> |x.next| > i
    {
      assert Prev(head, level, 0).next[i] == NodeAt(level, 0);
    }

    /**
      The loop of remove: takes the node out of its levels, from the top, and lowers
      `maxHeight` for every level that becomes empty.
     */
    method UnlinkAll(x: SkipNode, update: seq<SkipNode>, ghost lv: seq<Level>, ghost ks: seq<nat>,
        ghost after: seq<Level>, ghost all: set<SkipNode>)
      requires forall j :: 0 <= j < |lv| ==> Linked(head, lv[j], j) && ElemsIncrease(lv[j]) && InAll(lv[j], all)
      requires head in all && x in all && x != head
      requires |x.next| <= maxHeight == |update| == |ks| <= |lv| == |after|
      requires forall j :: 0 <= j < |x.next| ==>
        ks[j] < |lv[j]| && lv[j][ks[j]] == x && update[j] == Prev(head, lv[j], ks[j])
      requires forall j :: 0 <= j < |lv| ==> after[j] == if j < |x.next| then Removed(lv[j], ks[j]) else lv[j]
      requires forall j, k :: 0 <= j <= k < |lv| && after[j] == [] ==> after[k] == []
      requires forall j :: maxHeight <= j < |lv| ==> lv[j] == []
      modifies all, this`maxHeight
      ensures forall j :: 0 <= j < |lv| ==> Linked(head, after[j], j)
      ensures forall y :: y in all ==> |y.next| == old(|y.next|)
      ensures maxHeight <= |lv| && forall j :: maxHeight <= j < |lv| ==> after[j] == []
    {
      hide Linked, ElemsIncrease, Removed, Prev, InAll;
      ghost var mixed := lv;
      for i := |x.next| downto 0
        invariant forall y :: y in all ==> |y.next| == old(|y.next|)
        invariant |mixed| == |lv| && forall j :: 0 <= j < |lv| ==> mixed[j] == if j >= i then after[j] else lv[j]
        invariant forall j :: 0 <= j < |lv| ==> Linked(head, mixed[j], j)
        invariant maxHeight <= |lv| && forall j :: maxHeight <= j < |lv| ==> mixed[j] == []
      {
        PrevIn(head, lv[i], ks[i], all);
        assert mixed[i] != [];
        UnlinkOne(x, i, update[i], lv[i], ks[i], mixed);
        mixed := mixed[i := after[i]];
        FirstLink(after[i], i);
        if head.next[i] == null {
          maxHeight := maxHeight - 1;
        }
      }
    }

    /** Takes a node off all its levels. */
    method RemoveNode(x: SkipNode, update: seq<SkipNode>, ghost ks: seq<nat>)
      requires Valid() && x in Nodes() && |update| == maxHeight && Places(update, ks, x.elem, 0)
      modifies this`len, this`levels, this`maxHeight, head, Nodes()
      ensures Valid() && Nodes() == old(Nodes()) - {x}
    {
      hide Layered, Linked, ElemsIncrease, SplitAt, Removed, Prev, InAll;
      ghost var all := Nodes() + {head};
      StackedFacts(all);
      RemoveFacts(x, update, ks);
      ghost var after := RemovedBelow(levels, ks, x.height, x);
      AfterRemove(levels, ks, x.height, x);
      ghost var nodes := Nodes() - {x};
      assert nodes == NodesOf(after[0]);
      UnlinkAll(x, update, levels, ks, after, all);
      SetLevels(after, len - 1, nodes);
    }

    lemma RemoveFacts(x: SkipNode, update: seq<SkipNode>, ks: seq<nat>)
      requires Valid() && x in Nodes() && |update| == maxHeight && Places(update, ks, x.elem, 0)
      ensures |ks| == |update| && 1 <= x.height <= maxHeight && levels != []
      ensures forall j :: 0 <= j < x.height ==>
        ks[j] < |levels[j]| && levels[j][ks[j]] == x && update[j] == Prev(head, levels[j], ks[j])
      ensures forall j :: x.height <= j < |levels| ==> x !in levels[j]
    {
      hide Linked;
      assert x in levels[x.height - 1];
      forall j | 0 <= j < x.height
        ensures j < maxHeight && ks[j] < |levels[j]| && levels[j][ks[j]] == x
          && update[j] == Prev(head, levels[j], ks[j]) {
        assert x in levels[j];
        FoundAt(levels[j], ks[j], x);
      }
    }

    method Remove(elem: int)
      requires Valid()
      modifies this, head, Nodes()
      ensures Valid() && Nodes() <= old(Nodes())
      ensures Elements() == old(Elements()) - {elem}
    {
      hide Layered, Linked;
      var update;
      ghost var ks;
      update, ks := UpdateList(elem);
      var x := Find(elem, update, ks);
      if x != null {
        OneNodeEach(x);
        RemoveNode(x, update, ks);
      }
    }

    lemma OneNodeEach(x: SkipNode)
      requires Valid() && x in Nodes()
      ensures forall y :: y in Nodes() && y.elem == x.elem ==> y == x
    {
      hide Linked;
      assert ElemsIncrease(levels[0]);
    }
  }

  lemma Absent(level: Level, k: nat, elem: int)
    requires ElemsIncrease(level) && SplitAt(level, k, elem) && (k < |level| ==> level[k].elem != elem)
    ensures forall x :: x in level ==> x.elem != elem
  {}

  /** The levels with `node` in those below `height`. */
  ghost function InsertedBelow(levels: seq<Level>, ks: seq<nat>, height: nat, node: SkipNode): (r: seq<Level>)
    requires height <= |ks| && height <= |levels| && forall i :: 0 <= i < height ==> ks[i] <= |levels[i]|
    ensures |r| == |levels|
    ensures forall i :: 0 <= i < |levels| ==> r[i] == if i < height then Inserted(levels[i], ks[i], node) else levels[i]
  {
    seq(|levels|, i requires 0 <= i < |levels| => if i < height then Inserted(levels[i], ks[i], node) else levels[i])
  }

  lemma InsertedIs(level: Level, k: nat, node: SkipNode)
    requires ElemsIncrease(level) && SplitAt(level, k, node.elem) && (k < |level| ==> level[k].elem != node.elem)
    ensures ElemsIncrease(Inserted(level, k, node))
    ensures forall x :: x in Inserted(level, k, node) <==> x in level || x == node
  {
    var r := Inserted(level, k, node);
    forall x | x in level ensures x in r {
      var j :| 0 <= j < |level| && level[j] == x;
      assert r[if j < k then j else j + 1] == x;
    }
    assert r[k] == node;
  }

  /** The levels with the new node are layered again. */
  lemma AfterInsert(levels: seq<Level>, ks: seq<nat>, height: nat, node: SkipNode)
    requires height <= |ks| && height <= |levels|
    requires forall i :: 0 <= i < |levels| ==> ElemsIncrease(levels[i]) && forall x :: x in levels[i] ==>
      x.elem != node.elem
    requires forall i :: 0 <= i < height ==> SplitAt(levels[i], ks[i], node.elem) && ks[i] <= |levels[i]|
    ensures var r := InsertedBelow(levels, ks, height, node);
      && (forall i :: 0 <= i < |levels| ==> ElemsIncrease(r[i]))
      && (forall i :: 0 <= i < height ==> forall x :: x in r[i] <==> x in levels[i] || x == node)
  {
    var r := InsertedBelow(levels, ks, height, node);
    forall i | 0 <= i < height ensures ElemsIncrease(r[i]) && forall x :: x in r[i] <==> x in levels[i] || x == node {
      if ks[i] < |levels[i]| {
        assert levels[i][ks[i]] in levels[i];
      }
      InsertedIs(levels[i], ks[i], node);
    }
  }

  function NodesOf(level: Level): set<SkipNode> {
    set x | x in level
  }

  predicate InAll(level: Level, all: set<SkipNode>) {
    forall x :: x in level ==> x in all
  }

  /** With the same heights, the levels with the new node are layered. */
  lemma LayeredAgain(levels: seq<Level>, after: seq<Level>, node: SkipNode)
    requires Layered(levels) && |after| == |levels| && 1 <= node.height <= |levels|
    requires forall i :: 0 <= i < |levels| ==> ElemsIncrease(after[i])
    requires forall i :: 0 <= i < |levels| ==>
      if i < node.height then forall x :: x in after[i] <==> x in levels[i] || x == node else after[i] == levels[i]
    ensures Layered(after)
  {
  }

  /** `x` comes before `y` on the level. */
  predicate Precedes(level: Level, x: SkipNode, y: SkipNode) {
    exists j, k :: 0 <= j < k < |level| && level[j] == x && level[k] == y
  }

  /** Every level is a sublist of the one below: its nodes are there, in the same order. */
  lemma SublistOfBelow(levels: seq<Level>, i: nat, x: SkipNode, y: SkipNode)
    requires Layered(levels) && i + 1 < |levels| && Precedes(levels[i + 1], x, y)
    ensures Precedes(levels[i], x, y)
  {
    assert x in levels[i + 1] && y in levels[i + 1];
    assert x in levels[0] && y in levels[0];
    var p :| 0 <= p < |levels[i]| && levels[i][p] == x;
    var q :| 0 <= q < |levels[i]| && levels[i][q] == y;
    assert ElemsIncrease(levels[i + 1]) && ElemsIncrease(levels[i]);
  }

  lemma FoundAt(level: Level, k: nat, x: SkipNode)
    requires ElemsIncrease(level) && SplitAt(level, k, x.elem) && x in level
    ensures k < |level| && level[k] == x
  {
    var p :| 0 <= p < |level| && level[p] == x;
    assert p >= k;
  }

  /** The levels without `x`, which is on those below `height`. */
  ghost function RemovedBelow(levels: seq<Level>, ks: seq<nat>, height: nat, x: SkipNode): (r: seq<Level>)
    requires height <= |ks| && height <= |levels| && forall i :: 0 <= i < height ==> ks[i] < |levels[i]|
    ensures |r| == |levels|
    ensures forall i :: 0 <= i < |levels| ==> r[i] == if i < height then Removed(levels[i], ks[i]) else levels[i]
  {
    seq(|levels|, i requires 0 <= i < |levels| => if i < height then Removed(levels[i], ks[i]) else levels[i])
  }

  lemma RemovedIs(level: Level, k: nat, x: SkipNode)
    requires ElemsIncrease(level) && k < |level| && level[k] == x
    ensures ElemsIncrease(Removed(level, k))
    ensures forall y :: y in Removed(level, k) <==> y in level && y != x
  {
    var r := Removed(level, k);
    forall y | y in level && y != x ensures y in r {
      var j :| 0 <= j < |level| && level[j] == y;
      assert r[if j < k then j else j - 1] == y;
    }
  }

  lemma LayeredWithout(levels: seq<Level>, r: seq<Level>, x: SkipNode)
    requires Layered(levels) && |r| == |levels| > 0
    requires forall i :: 0 <= i < |r| ==> ElemsIncrease(r[i]) && forall y :: y in r[i] <==> y in levels[i] && y != x
    ensures Layered(r)
  {
    hide ElemsIncrease;
    forall i, y | 0 <= i < |r| && y in r[i] ensures y in r[0] && y.height > i {
      assert y in levels[i];
    }
    forall i, y | 0 <= i < |r| && y in r[0] && y.height > i ensures y in r[i] {
      assert y in levels[0] && y in levels[i];
    }
  }

  /** Levels above an empty level are empty. */
  lemma EmptyAbove(levels: seq<Level>, j: nat, k: nat)
    requires Layered(levels) && j <= k < |levels| && levels[k] != []
    ensures levels[j] != []
  {
    var y := levels[k][0];
    assert y in levels[k];
    assert y in levels[0] && y.height > k;
    assert y in levels[j];
  }

  /** The levels without the node are layered, and empty ones are at the top. */
  lemma AfterRemove(levels: seq<Level>, ks: seq<nat>, height: nat, x: SkipNode)
    requires Layered(levels) && 1 <= x.height == height <= |ks| && height <= |levels|
    requires forall i :: 0 <= i < height ==> ks[i] < |levels[i]| && levels[i][ks[i]] == x
    requires forall j :: height <= j < |levels| ==> x !in levels[j]
    ensures var r := RemovedBelow(levels, ks, height, x);
      && Layered(r) && (forall y :: y in r[0] <==> y in levels[0] && y != x)
      && (forall j, k :: 0 <= j <= k < |levels| && r[j] == [] ==> r[k] == [])
  {
    hide ElemsIncrease, Removed;
    var r := RemovedBelow(levels, ks, height, x);
    forall i | 0 <= i < |levels| ensures ElemsIncrease(r[i]) && forall y :: y in r[i] <==> y in levels[i] && y != x {
      if i < height {
        RemovedIs(levels[i], ks[i], x);
      }
    }
    LayeredWithout(levels, r, x);
    forall j, k | 0 <= j <= k < |levels| && r[k] != [] ensures r[j] != [] {
      EmptyAbove(r, j, k);
    }
  }

  lemma PrevIn(head: SkipNode, level: Level, k: nat, all: set<SkipNode>)
    requires k <= |level| && head in all && InAll(level, all)
    ensures Prev(head, level, k) in all
  {
    if k > 0 {
      var x := level[k - 1];
      assert x in level;
    }
  }
}
