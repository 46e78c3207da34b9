/**
  The rules that the board of own/go.py keeps: groups of stones as paths of one colour,
  ledges, and the position that a move leads to. Nothing here mentions how the program
  represents groups.
 */
module GoRules {

  const EMPTY: nat := 0
  const WHITE: nat := 1
  const BLACK: nat := 2

  type Colors = seq<nat>
  type Adjacency = seq<seq<nat>>

  predicate Near(nbrs: Adjacency, p: nat, q: nat) {
    p < |nbrs| && q in nbrs[p]
  }

  /** A finite simple graph, neighbours listed once. */
  ghost predicate Graph(nbrs: Adjacency) {
    && (forall p: nat, q: nat :: Near(nbrs, p, q) ==> q < |nbrs| && q != p && Near(nbrs, q, p))
    && (forall p: nat, i: nat, j: nat :: p < |nbrs| && i < j < |nbrs[p]| ==> nbrs[p][i] != nbrs[p][j])
  }

  predicate Position(nbrs: Adjacency, color: Colors) {
    && |color| == |nbrs|
    && forall p :: 0 <= p < |color| ==> color[p] <= 2
  }

  predicate Stone(color: Colors, p: nat) {
    p < |color| && color[p] != EMPTY
  }

  predicate IsEmpty(color: Colors, p: nat) {
    p < |color| && color[p] == EMPTY
  }

  function Opponent(c: nat): nat
    requires c == WHITE || c == BLACK
  {
    3 - c
  }

  predicate NearStep(nbrs: Adjacency, path: seq<nat>, k: nat) {
    0 < k < |path| && Near(nbrs, path[k - 1], path[k])
  }

  /** A walk over stones of one colour. */
  predicate IsPath(nbrs: Adjacency, color: Colors, path: seq<nat>) {
    && |path| > 0
    && Stone(color, path[0])
    && (forall k :: 0 <= k < |path| ==> Stone(color, path[k]) && color[path[k]] == color[path[0]])
    && (forall k :: 0 < k < |path| ==> NearStep(nbrs, path, k))
  }

  ghost predicate Connected(nbrs: Adjacency, color: Colors, p: nat, q: nat) {
    exists path :: IsPath(nbrs, color, path) && path[0] == p && path[|path| - 1] == q
  }

  /** The group of `p` has a ledge: an empty neighbour of one of its members. */
  ghost predicate Breathes(nbrs: Adjacency, color: Colors, p: nat) {
    exists q: nat, e: nat :: Connected(nbrs, color, p, q) && Near(nbrs, q, e) && IsEmpty(color, e)
  }

  ghost predicate AllBreathe(nbrs: Adjacency, color: Colors) {
    forall p: nat :: Stone(color, p) ==> Breathes(nbrs, color, p)
  }

  /** The group of `p` has a member next to `s`. */
  ghost predicate Touches(nbrs: Adjacency, color: Colors, p: nat, s: nat) {
    exists q: nat :: Connected(nbrs, color, p, q) && Near(nbrs, s, q)
  }

  /** What a stone of colour `c` on `s` captures from `color`, which has that stone. */
  ghost predicate Captured(nbrs: Adjacency, color: Colors, s: nat, c: nat, p: nat)
    requires c == WHITE || c == BLACK
  {
    && p < |color|
    && color[p] == Opponent(c)
    && Touches(nbrs, color, p, s)
    && !Breathes(nbrs, color, p)
  }

  /** The position after colour `c` plays on `s`. */
  ghost function Played(nbrs: Adjacency, color: Colors, s: nat, c: nat): (r: Colors)
    requires s < |color| && (c == WHITE || c == BLACK)
    ensures |r| == |color|
  {
    var placed := color[s := c];
    seq(|color|, p requires 0 <= p < |color| => if Captured(nbrs, placed, s, c, p) then EMPTY else placed[p])
  }

  // ---------------------------------------------------------------------
  // Connection is an equivalence on the stones
  // ---------------------------------------------------------------------

  lemma ConnectedBy(nbrs: Adjacency, color: Colors, path: seq<nat>)
    requires IsPath(nbrs, color, path)
    ensures Connected(nbrs, color, path[0], path[|path| - 1])
  {}

  lemma ConnectedSelf(nbrs: Adjacency, color: Colors, p: nat)
    requires Stone(color, p)
    ensures Connected(nbrs, color, p, p)
  {
    ConnectedBy(nbrs, color, [p]);
  }

  lemma ConnectedIsStones(nbrs: Adjacency, color: Colors, p: nat, q: nat)
    requires Connected(nbrs, color, p, q)
    ensures Stone(color, p) && Stone(color, q) && color[p] == color[q]
  {}

  lemma ConnectedNear(nbrs: Adjacency, color: Colors, p: nat, q: nat)
    requires Stone(color, p) && Stone(color, q) && color[p] == color[q] && Near(nbrs, p, q)
    ensures Connected(nbrs, color, p, q)
  {
    ConnectedBy(nbrs, color, [p, q]);
  }

  lemma ConnectedTrans(nbrs: Adjacency, color: Colors, p: nat, q: nat, r: nat)
    requires Connected(nbrs, color, p, q) && Connected(nbrs, color, q, r)
    ensures Connected(nbrs, color, p, r)
  {
    var a :| IsPath(nbrs, color, a) && a[0] == p && a[|a| - 1] == q;
    var b :| IsPath(nbrs, color, b) && b[0] == q && b[|b| - 1] == r;
    var path := a + b[1..];
    forall k | 0 <= k < |path| ensures Stone(color, path[k]) && color[path[k]] == color[path[0]] {
      if k >= |a| {
        assert path[k] == b[k - |a| + 1];
      }
    }
    forall k | 0 < k < |path| ensures NearStep(nbrs, path, k) {
      assert if k < |a| then NearStep(nbrs, a, k) else NearStep(nbrs, b, k - |a| + 1);
      if k >= |a| {
        assert path[k] == b[k - |a| + 1] && path[k - 1] == b[k - |a|];
      }
    }
    ConnectedBy(nbrs, color, path);
  }

  lemma ConnectedSym(nbrs: Adjacency, color: Colors, p: nat, q: nat)
    requires Graph(nbrs) && Connected(nbrs, color, p, q)
    ensures Connected(nbrs, color, q, p)
  {
    var a :| IsPath(nbrs, color, a) && a[0] == p && a[|a| - 1] == q;
    var path := seq(|a|, k requires 0 <= k < |a| => a[|a| - 1 - k]);
    forall k | 0 < k < |path| ensures NearStep(nbrs, path, k) {
      assert NearStep(nbrs, a, |a| - k);
    }
    ConnectedBy(nbrs, color, path);
  }

  /** A set of stones that is closed under stepping to a neighbour of the same colour. */
  ghost predicate Closed(nbrs: Adjacency, color: Colors, within: set<nat>) {
    forall p: nat, q: nat ::
      p in within && Near(nbrs, p, q) && Stone(color, p) && Stone(color, q) && color[p] == color[q] ==> q in within
  }

  lemma {:induction false} PathStaysIn(nbrs: Adjacency, color: Colors, within: set<nat>, path: seq<nat>, k: nat)
    requires Closed(nbrs, color, within) && IsPath(nbrs, color, path) && path[0] in within && k < |path|
    ensures path[k] in within
  {
    if k > 0 {
      PathStaysIn(nbrs, color, within, path, k - 1);
      assert NearStep(nbrs, path, k);
    }
  }

  /** A group is the least closed set: no closed set can hold a part of it. */
  lemma ConnectedStaysIn(nbrs: Adjacency, color: Colors, within: set<nat>, p: nat, q: nat)
    requires Closed(nbrs, color, within) && Connected(nbrs, color, p, q) && p in within
    ensures q in within
  {
    var path :| IsPath(nbrs, color, path) && path[0] == p && path[|path| - 1] == q;
    PathStaysIn(nbrs, color, within, path, |path| - 1);
  }

  /** Squares where the two positions have the same stone. */
  predicate Same(color: Colors, color': Colors, p: nat) {
    p < |color| && p < |color'| && color[p] == color'[p]
  }

  lemma PathMoves(nbrs: Adjacency, color: Colors, color': Colors, p: nat, q: nat, path: seq<nat>)
    requires IsPath(nbrs, color, path) && path[0] == p && path[|path| - 1] == q
    requires forall k :: 0 <= k < |path| ==> Same(color, color', path[k])
    ensures Connected(nbrs, color', p, q)
  {
    assert IsPath(nbrs, color', path);
    ConnectedBy(nbrs, color', path);
  }

  lemma PathBegins(nbrs: Adjacency, color: Colors, path: seq<nat>, n: nat)
    requires IsPath(nbrs, color, path) && 0 < n <= |path|
    ensures IsPath(nbrs, color, path[..n])
  {
    forall k | 0 < k < n ensures NearStep(nbrs, path[..n], k) {
      assert NearStep(nbrs, path, k);
    }
  }

  /** If the stones of the group of `p` stay, so does the group. */
  lemma GroupStays(nbrs: Adjacency, color: Colors, color': Colors, p: nat, q: nat)
    requires Connected(nbrs, color, p, q)
    requires forall m: nat :: Connected(nbrs, color, p, m) ==> Same(color, color', m)
    ensures Connected(nbrs, color', p, q)
  {
    var path :| IsPath(nbrs, color, path) && path[0] == p && path[|path| - 1] == q;
    forall k | 0 <= k < |path| ensures Same(color, color', path[k]) {
      PathBegins(nbrs, color, path, k + 1);
      ConnectedBy(nbrs, color, path[..k + 1]);
    }
    PathMoves(nbrs, color, color', p, q, path);
  }

  /** Adding stones keeps the groups of every colour connected. */
  lemma MoreStones(nbrs: Adjacency, color: Colors, color': Colors, p: nat, q: nat)
    requires Connected(nbrs, color, p, q)
    requires forall m: nat :: Stone(color, m) && color[m] == color[p] ==> Same(color, color', m)
    ensures Connected(nbrs, color', p, q)
  {
    ConnectedIsStones(nbrs, color, p, q);
    forall m: nat | Connected(nbrs, color, p, m) ensures Same(color, color', m) {
      ConnectedIsStones(nbrs, color, p, m);
    }
    GroupStays(nbrs, color, color', p, q);
  }

  // ---------------------------------------------------------------------
  // A move, captured group by captured group
  // ---------------------------------------------------------------------

  /**
    `color` is `placed` without some whole groups that the new stone captures.
    `placed` is the position with the stone of colour `c` on `s`.
   */
  ghost predicate Taken(nbrs: Adjacency, placed: Colors, color: Colors, s: nat, c: nat)
    requires c == WHITE || c == BLACK
  {
    && |color| == |placed| == |nbrs|
    && s < |placed| && placed[s] == c
    && (forall p: nat :: p < |color| ==>
      color[p] == placed[p] || (color[p] == EMPTY && Captured(nbrs, placed, s, c, p)))
    && (forall p: nat, q: nat :: Near(nbrs, p, q) && q < |color| && placed[p] == placed[q] == Opponent(c) ==>
      color[p] == color[q])
  }

  lemma TakenStart(nbrs: Adjacency, placed: Colors, s: nat, c: nat)
    requires c == WHITE || c == BLACK
    requires |placed| == |nbrs| && s < |placed| && placed[s] == c
    ensures Taken(nbrs, placed, placed, s, c)
  {}

  /** A group of the opponent is on the board as a whole or not at all. */
  lemma TakenWhole(nbrs: Adjacency, placed: Colors, color: Colors, s: nat, c: nat, p: nat, q: nat)
    requires c == WHITE || c == BLACK
    requires Taken(nbrs, placed, color, s, c) && Connected(nbrs, placed, p, q) && Stone(color, p)
    ensures Connected(nbrs, color, p, q)
  {
    var path :| IsPath(nbrs, placed, path) && path[0] == p && path[|path| - 1] == q;
    hide Captured;
    forall k | 0 <= k < |path| ensures Same(placed, color, path[k]) {
      TakenAlong(nbrs, placed, color, s, c, path, k);
    }
    PathMoves(nbrs, placed, color, p, q, path);
  }

  lemma {:induction false} TakenAlong(nbrs: Adjacency, placed: Colors, color: Colors, s: nat, c: nat, path: seq<nat>,
      k: nat)
    requires c == WHITE || c == BLACK
    requires Taken(nbrs, placed, color, s, c) && IsPath(nbrs, placed, path) && Stone(color, path[0]) && k < |path|
    ensures Same(placed, color, path[k])
  {
    hide Captured;
    if k > 0 {
      TakenAlong(nbrs, placed, color, s, c, path, k - 1);
      assert NearStep(nbrs, path, k);
      TakenOnlyOpponents(nbrs, placed, color, s, c, path[k]);
    }
  }

  lemma TakenOnlyOpponents(nbrs: Adjacency, placed: Colors, color: Colors, s: nat, c: nat, p: nat)
    requires c == WHITE || c == BLACK
    requires Taken(nbrs, placed, color, s, c) && p < |color|
    ensures color[p] == placed[p] || (color[p] == EMPTY && placed[p] == Opponent(c))
  {}

  /** A group that is still on the board is a group of `placed`. */
  lemma TakenFewer(nbrs: Adjacency, placed: Colors, color: Colors, s: nat, c: nat, p: nat, q: nat)
    requires c == WHITE || c == BLACK
    requires Taken(nbrs, placed, color, s, c) && Connected(nbrs, color, p, q)
    ensures Connected(nbrs, placed, p, q)
  {
    var path :| IsPath(nbrs, color, path) && path[0] == p && path[|path| - 1] == q;
    hide Captured;
    PathMoves(nbrs, color, placed, p, q, path);
  }

  /** A group of the opponent gets no ledge from a capture. */
  lemma TakenBreathes(nbrs: Adjacency, placed: Colors, color: Colors, s: nat, c: nat, p: nat)
    requires c == WHITE || c == BLACK
    requires Graph(nbrs) && Taken(nbrs, placed, color, s, c)
    requires Stone(color, p) && placed[p] == Opponent(c)
    ensures Breathes(nbrs, color, p) <==> Breathes(nbrs, placed, p)
  {
    if Breathes(nbrs, color, p) {
      var q: nat, e: nat :| Connected(nbrs, color, p, q) && Near(nbrs, q, e) && IsEmpty(color, e);
      TakenFewer(nbrs, placed, color, s, c, p, q);
      ConnectedIsStones(nbrs, placed, p, q);
      ConnectedIsStones(nbrs, color, p, q);
      TakenOnlyOpponents(nbrs, placed, color, s, c, e);
      assert IsEmpty(placed, e);
    }
    if Breathes(nbrs, placed, p) {
      var q: nat, e: nat :| Connected(nbrs, placed, p, q) && Near(nbrs, q, e) && IsEmpty(placed, e);
      TakenWhole(nbrs, placed, color, s, c, p, q);
      TakenOnlyOpponents(nbrs, placed, color, s, c, e);
      assert IsEmpty(color, e);
    }
  }

  /** One more group is taken off: `gone`, without a ledge and next to `s`. */
  lemma TakeGroup(nbrs: Adjacency, placed: Colors, color: Colors, color': Colors, s: nat, c: nat, p: nat)
    requires c == WHITE || c == BLACK
    requires Graph(nbrs) && Taken(nbrs, placed, color, s, c)
    requires Stone(color, p) && placed[p] == Opponent(c)
    requires Near(nbrs, s, p) && !Breathes(nbrs, color, p)
    requires |color'| == |color|
    requires forall q: nat :: q < |color| ==> color'[q] == if Connected(nbrs, color, p, q) then EMPTY else color[q]
    ensures Taken(nbrs, placed, color', s, c)
  {
    forall q: nat | q < |color|
      ensures color'[q] == placed[q] || (color'[q] == EMPTY && Captured(nbrs, placed, s, c, q)) {
      if Connected(nbrs, color, p, q) {
        TakenFewer(nbrs, placed, color, s, c, p, q);
        TakenBreathes(nbrs, placed, color, s, c, p);
        CapturedTogether(nbrs, placed, s, c, p, q);
      }
    }
    forall q: nat, r: nat | Near(nbrs, q, r) && r < |color| && placed[q] == placed[r] == Opponent(c)
      ensures color'[q] == color'[r] {
      assert color[q] == color[r];
      if color[q] != EMPTY {
        ConnectedNear(nbrs, color, q, r);
        ConnectedSym(nbrs, color, q, r);
        if Connected(nbrs, color, p, q) {
          ConnectedTrans(nbrs, color, p, q, r);
        } else if Connected(nbrs, color, p, r) {
          ConnectedTrans(nbrs, color, p, r, q);
        }
      }
    }
    TakenOnlyOpponents(nbrs, placed, color, s, c, s);
  }

  lemma CapturedTogether(nbrs: Adjacency, placed: Colors, s: nat, c: nat, p: nat, q: nat)
    requires c == WHITE || c == BLACK
    requires Graph(nbrs) && Connected(nbrs, placed, p, q) && placed[p] == Opponent(c)
    requires Near(nbrs, s, p) && !Breathes(nbrs, placed, p)
    ensures Captured(nbrs, placed, s, c, q)
  {
    ConnectedIsStones(nbrs, placed, p, q);
    ConnectedSym(nbrs, placed, p, q);
    assert Touches(nbrs, placed, q, s);
    if Breathes(nbrs, placed, q) {
      var r: nat, e: nat :| Connected(nbrs, placed, q, r) && Near(nbrs, r, e) && IsEmpty(placed, e);
      ConnectedTrans(nbrs, placed, p, q, r);
    }
  }

  /** When every group of the opponent next to `s` that is left has a ledge, the move is complete. */
  lemma TakenAll(nbrs: Adjacency, before: Colors, color: Colors, s: nat, c: nat)
    requires c == WHITE || c == BLACK
    requires s < |before| && Graph(nbrs) && Taken(nbrs, before[s := c], color, s, c)
    requires forall q: nat :: Near(nbrs, s, q) && Stone(color, q) && color[q] == Opponent(c) ==>
      Breathes(nbrs, color, q)
    ensures color == Played(nbrs, before, s, c)
  {
    var placed := before[s := c];
    forall p: nat | p < |color| ensures color[p] == if Captured(nbrs, placed, s, c, p) then EMPTY else placed[p] {
      if Captured(nbrs, placed, s, c, p) && color[p] != EMPTY {
        var q: nat :| Connected(nbrs, placed, p, q) && Near(nbrs, s, q);
        TakenWhole(nbrs, placed, color, s, c, p, q);
        ConnectedIsStones(nbrs, color, p, q);
        ConnectedIsStones(nbrs, placed, p, q);
        TakenBreathes(nbrs, placed, color, s, c, q);
        BreathesTogether(nbrs, placed, p, q);
      }
    }
  }

  lemma BreathesTogether(nbrs: Adjacency, color: Colors, p: nat, q: nat)
    requires Connected(nbrs, color, p, q) && Breathes(nbrs, color, q)
    ensures Breathes(nbrs, color, p)
  {
    var r: nat, e: nat :| Connected(nbrs, color, q, r) && Near(nbrs, r, e) && IsEmpty(color, e);
    ConnectedTrans(nbrs, color, p, q, r);
  }

  // ---------------------------------------------------------------------
  // Every group keeps a ledge
  // ---------------------------------------------------------------------

  lemma PlayedIsTaken(nbrs: Adjacency, before: Colors, s: nat, c: nat)
    requires c == WHITE || c == BLACK
    requires s < |before| == |nbrs| && Graph(nbrs)
    ensures Taken(nbrs, before[s := c], Played(nbrs, before, s, c), s, c)
  {
    var placed := before[s := c];
    var color := Played(nbrs, before, s, c);
    forall p: nat, q: nat | Near(nbrs, p, q) && q < |color| && placed[p] == placed[q] == Opponent(c)
      ensures color[p] == color[q] {
      ConnectedNear(nbrs, placed, p, q);
      ConnectedSym(nbrs, placed, p, q);
      if Captured(nbrs, placed, s, c, p) {
        SameFate(nbrs, placed, s, c, p, q);
      }
      if Captured(nbrs, placed, s, c, q) {
        SameFate(nbrs, placed, s, c, q, p);
      }
    }
    assert !Captured(nbrs, placed, s, c, s);
  }

  lemma SameFate(nbrs: Adjacency, placed: Colors, s: nat, c: nat, p: nat, q: nat)
    requires c == WHITE || c == BLACK
    requires Graph(nbrs) && Connected(nbrs, placed, p, q) && Captured(nbrs, placed, s, c, p)
    ensures Captured(nbrs, placed, s, c, q)
  {
    ConnectedIsStones(nbrs, placed, p, q);
    ConnectedSym(nbrs, placed, p, q);
    var r: nat :| Connected(nbrs, placed, p, r) && Near(nbrs, s, r);
    ConnectedTrans(nbrs, placed, q, p, r);
    if Breathes(nbrs, placed, q) {
      BreathesTogether(nbrs, placed, p, q);
    }
  }

  /** If every group had a ledge before the move, only the new stone's own group can be without one. */
  lemma OthersBreathe(nbrs: Adjacency, before: Colors, s: nat, c: nat, p: nat)
    requires c == WHITE || c == BLACK
    requires Graph(nbrs) && Position(nbrs, before) && IsEmpty(before, s) && AllBreathe(nbrs, before)
    requires Stone(Played(nbrs, before, s, c), p) && !Connected(nbrs, Played(nbrs, before, s, c), s, p)
    ensures Breathes(nbrs, Played(nbrs, before, s, c), p)
  {
    var color := Played(nbrs, before, s, c);
    PlayedIsTaken(nbrs, before, s, c);
    TakenOnlyOpponents(nbrs, before[s := c], color, s, c, p);
    TakenOnlyOpponents(nbrs, before[s := c], color, s, c, s);
    hide Played, Taken, Breathes, Captured, Graph;
    if p == s {
      ConnectedSelf(nbrs, color, s);
    }
    var q, e := LedgeOf(nbrs, before, p);
    LedgeAfter(nbrs, before, s, c, p, q, e);
  }

  lemma LedgeAfter(nbrs: Adjacency, before: Colors, s: nat, c: nat, p: nat, q: nat, e: nat)
    requires c == WHITE || c == BLACK
    requires Graph(nbrs) && Position(nbrs, before) && IsEmpty(before, s)
    requires Stone(Played(nbrs, before, s, c), p) && !Connected(nbrs, Played(nbrs, before, s, c), s, p)
    requires Connected(nbrs, before, p, q) && Near(nbrs, q, e) && IsEmpty(before, e)
    ensures Breathes(nbrs, Played(nbrs, before, s, c), p)
  {
    var placed := before[s := c];
    var color := Played(nbrs, before, s, c);
    PlayedIsTaken(nbrs, before, s, c);
    TakenOnlyOpponents(nbrs, placed, color, s, c, s);
    TakenOnlyOpponents(nbrs, placed, color, s, c, e);
    hide Played, Taken, Breathes, Captured, Graph, Connected;
    MoreStones(nbrs, before, placed, p, q);
    ConnectedIsStones(nbrs, before, p, q);
    TakenWhole(nbrs, placed, color, s, c, p, q);
    ConnectedIsStones(nbrs, color, p, q);
    ConnectedIsStones(nbrs, placed, p, q);
    if e != s {
      HasLedge(nbrs, color, p, q, e);
    } else if color[q] == c {
      NextToStone(nbrs, color, s, q, p);
    } else {
      NearSym(nbrs, q, s);
      OpponentBreathes(nbrs, before, s, c, p, q);
    }
  }

  lemma LedgeOf(nbrs: Adjacency, color: Colors, p: nat) returns (q: nat, e: nat)
    requires Breathes(nbrs, color, p)
    ensures Connected(nbrs, color, p, q) && Near(nbrs, q, e) && IsEmpty(color, e)
  {
    q, e :| Connected(nbrs, color, p, q) && Near(nbrs, q, e) && IsEmpty(color, e);
  }

  lemma HasLedge(nbrs: Adjacency, color: Colors, p: nat, q: nat, e: nat)
    requires Connected(nbrs, color, p, q) && Near(nbrs, q, e) && IsEmpty(color, e)
    ensures Breathes(nbrs, color, p)
  {}

  lemma NearSym(nbrs: Adjacency, p: nat, q: nat)
    requires Graph(nbrs) && Near(nbrs, p, q)
    ensures Near(nbrs, q, p) && q < |nbrs| && p != q
  {}

  lemma NextToStone(nbrs: Adjacency, color: Colors, s: nat, q: nat, p: nat)
    requires Graph(nbrs) && Stone(color, s) && Near(nbrs, q, s) && Connected(nbrs, color, p, q) && color[q] == color[s]
    ensures Connected(nbrs, color, s, p)
  {
    ConnectedIsStones(nbrs, color, p, q);
    ConnectedNear(nbrs, color, s, q);
    ConnectedSym(nbrs, color, p, q);
    ConnectedTrans(nbrs, color, s, q, p);
  }

  lemma OpponentBreathes(nbrs: Adjacency, before: Colors, s: nat, c: nat, p: nat, q: nat)
    requires c == WHITE || c == BLACK
    requires Graph(nbrs) && |before| == |nbrs| && s < |before|
    requires Stone(Played(nbrs, before, s, c), p) && before[s := c][p] == Opponent(c)
    requires Connected(nbrs, before[s := c], p, q) && Near(nbrs, s, q)
    ensures Breathes(nbrs, Played(nbrs, before, s, c), p)
  {
    var placed := before[s := c];
    PlayedIsTaken(nbrs, before, s, c);
    TakenBreathes(nbrs, placed, Played(nbrs, before, s, c), s, c, p);
    assert Touches(nbrs, placed, p, s);
  }

  /** The move keeps a ledge for every group exactly when the new stone's group has one. */
  lemma AllBreatheIff(nbrs: Adjacency, before: Colors, s: nat, c: nat)
    requires c == WHITE || c == BLACK
    requires Graph(nbrs) && Position(nbrs, before) && IsEmpty(before, s) && AllBreathe(nbrs, before)
    ensures AllBreathe(nbrs, Played(nbrs, before, s, c)) <==> Breathes(nbrs, Played(nbrs, before, s, c), s)
  {
    var color := Played(nbrs, before, s, c);
    PlayedIsTaken(nbrs, before, s, c);
    TakenOnlyOpponents(nbrs, before[s := c], color, s, c, s);
    if Breathes(nbrs, color, s) {
      forall p: nat | Stone(color, p) ensures Breathes(nbrs, color, p) {
        if Connected(nbrs, color, s, p) {
          ConnectedSym(nbrs, color, s, p);
          BreathesTogether(nbrs, color, p, s);
        } else {
          OthersBreathe(nbrs, before, s, c, p);
        }
      }
    }
  }
}
