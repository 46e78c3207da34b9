/**
  How own/go.py represents groups: references that lead to a root square, and at each root
  the number of its group's ledges. `root` and `born` are ghost: the root that a square's
  references lead to, and the time its stone was placed.
 */
module GoGroups {

  import opened GoRules

  type Pairs = set<(nat, nat)>

  // ---------------------------------------------------------------------
  // References
  // ---------------------------------------------------------------------

  /** The reference of a stone is a later stone of the same group, or itself at the root. */
  predicate Linked(color: Colors, reference: seq<nat>, root: seq<nat>, born: seq<nat>, p: nat)
    requires |color| == |reference| == |root| == |born| && p < |color|
  {
    var q, r := reference[p], root[p];
    && Stone(color, q) && Stone(color, r)
    && root[q] == r && root[r] == r && reference[r] == r
    && (p != r ==> q != p && born[p] < born[q] && born[p] < born[r])
  }

  ghost predicate Forest(color: Colors, reference: seq<nat>, root: seq<nat>, born: seq<nat>) {
    && |color| == |reference| == |root| == |born|
    && forall p: nat :: Stone(color, p) ==> Linked(color, reference, root, born, p)
  }

  /** A step along a reference stays in the group and leads to a later stone. */
  lemma FollowReference(color: Colors, reference: seq<nat>, root: seq<nat>, born: seq<nat>, p: nat)
    requires Forest(color, reference, root, born) && Stone(color, p)
    ensures |color| == |reference| == |root| == |born|
    ensures var q := reference[p];
      && Stone(color, q) && root[q] == root[p]
      && (if q == p then root[p] == p else born[p] < born[q])
  {
    assert Linked(color, reference, root, born, p);
  }

  lemma RootOf(color: Colors, reference: seq<nat>, root: seq<nat>, born: seq<nat>, p: nat)
    requires Forest(color, reference, root, born) && Stone(color, p)
    ensures |color| == |reference| == |root| == |born|
    ensures var r := root[p]; Stone(color, r) && root[r] == r && reference[r] == r
  {
    assert Linked(color, reference, root, born, p);
  }

  lemma ForestCompressed(color: Colors, reference: seq<nat>, root: seq<nat>, born: seq<nat>, p: nat)
    requires Forest(color, reference, root, born) && Stone(color, p)
    ensures Forest(color, reference[p := root[p]], root, born)
  {
    assert Linked(color, reference, root, born, p);
    forall q: nat | Stone(color, q) ensures Linked(color, reference[p := root[p]], root, born, q) {
      assert Linked(color, reference, root, born, q);
    }
  }

  lemma ForestWithStone(color: Colors, reference: seq<nat>, root: seq<nat>, born: seq<nat>, s: nat, c: nat, now: nat)
    requires Forest(color, reference, root, born) && IsEmpty(color, s) && c != EMPTY
    ensures Forest(color[s := c], reference[s := s], root[s := s], born[s := now])
  {
    var color' := color[s := c];
    forall q: nat | Stone(color', q) ensures Linked(color', reference[s := s], root[s := s], born[s := now], q) {
      if q != s {
        assert Stone(color, q);
        assert Linked(color, reference, root, born, q);
      }
    }
  }

  /** The roots after the group of `g` has been given to `s`. */
  function Merged(root: seq<nat>, g: nat, s: nat): (r: seq<nat>)
    ensures |r| == |root|
  {
    seq(|root|, p requires 0 <= p < |root| => if root[p] == g then s else root[p])
  }

  lemma ForestMerged(color: Colors, reference: seq<nat>, root: seq<nat>, born: seq<nat>, g: nat, s: nat)
    requires Forest(color, reference, root, born)
    requires Stone(color, g) && Stone(color, s) && root[g] == g && root[s] == s && g != s && born[g] < born[s]
    ensures Forest(color, reference[g := s], Merged(root, g, s), born)
  {
    assert Linked(color, reference, root, born, g);
    assert Linked(color, reference, root, born, s);
    forall q: nat | Stone(color, q) ensures Linked(color, reference[g := s], Merged(root, g, s), born, q) {
      assert Linked(color, reference, root, born, q);
    }
  }

  /** The stones whose root is `g`. */
  function Group(color: Colors, root: seq<nat>, g: nat): set<nat>
    requires |root| == |color|
  {
    set q: nat | q < |color| && Stone(color, q) && root[q] == g
  }

  /** The position without the stones of `gone`. */
  function Minus(color: Colors, gone: set<nat>): (r: Colors)
    ensures |r| == |color|
  {
    seq(|color|, p requires 0 <= p < |color| => if p in gone then EMPTY else color[p])
  }

  lemma ForestWithout(color: Colors, reference: seq<nat>, root: seq<nat>, born: seq<nat>, g: nat)
    requires Forest(color, reference, root, born)
    ensures Forest(Minus(color, Group(color, root, g)), reference, root, born)
  {
    var color' := Minus(color, Group(color, root, g));
    forall q: nat | Stone(color', q) ensures Linked(color', reference, root, born, q) {
      assert Stone(color, q);
      assert Linked(color, reference, root, born, q);
      assert Linked(color, reference, root, born, root[q]);
    }
  }

  // ---------------------------------------------------------------------
  // Roots and groups
  // ---------------------------------------------------------------------

  /** Neighbours of one colour have one root; the stone on `s` still has to be joined to `pend`. */
  ghost predicate Joined(nbrs: Adjacency, color: Colors, root: seq<nat>, s: nat, pend: set<nat>) {
    && |root| == |color|
    && forall p: nat, q: nat :: Near(nbrs, p, q) && Stone(color, p) && Stone(color, q) && color[p] == color[q] ==>
      root[p] == root[q] || (p == s && q in pend) || (q == s && p in pend)
  }

  /** A path of its own colour leads from every stone to its root. */
  ghost predicate Whole(nbrs: Adjacency, color: Colors, root: seq<nat>) {
    && |root| == |color|
    && forall p: nat :: Stone(color, p) ==> Connected(nbrs, color, p, root[p])
  }

  lemma SameRootConnects(nbrs: Adjacency, color: Colors, root: seq<nat>, p: nat, q: nat)
    requires Graph(nbrs) && Whole(nbrs, color, root)
    requires Stone(color, p) && Stone(color, q) && root[p] == root[q]
    ensures Connected(nbrs, color, p, q)
  {
    ConnectedSym(nbrs, color, q, root[q]);
    ConnectedTrans(nbrs, color, p, root[p], q);
  }

  lemma ConnectedHasRoot(nbrs: Adjacency, color: Colors, root: seq<nat>, s: nat, pend: set<nat>, p: nat, q: nat)
    requires Joined(nbrs, color, root, s, pend) && Connected(nbrs, color, p, q)
    requires pend == {} || (Stone(color, p) && Stone(color, s) && color[p] != color[s])
    ensures root[p] == root[q]
  {
    ConnectedIsStones(nbrs, color, p, q);
    var within := set m: nat | m < |color| && Stone(color, m) && root[m] == root[p] && color[m] == color[p];
    ConnectedStaysIn(nbrs, color, within, p, q);
  }

  /** Two stones have the same root exactly when a path of their colour joins them. */
  lemma RootIffConnected(nbrs: Adjacency, color: Colors, root: seq<nat>, s: nat, p: nat, q: nat)
    requires Graph(nbrs) && Whole(nbrs, color, root) && Joined(nbrs, color, root, s, {})
    requires Stone(color, p) && Stone(color, q)
    ensures root[p] == root[q] <==> Connected(nbrs, color, p, q)
  {
    if root[p] == root[q] {
      SameRootConnects(nbrs, color, root, p, q);
    }
    if Connected(nbrs, color, p, q) {
      ConnectedHasRoot(nbrs, color, root, s, {}, p, q);
    }
  }

  /** All neighbours of a square. */
  function Around(nbrs: Adjacency, s: nat): set<nat>
    requires s < |nbrs|
  {
    set q | q in nbrs[s]
  }

  lemma JoinedWithStone(nbrs: Adjacency, color: Colors, root: seq<nat>, t: nat, s: nat, c: nat)
    requires Graph(nbrs) && |nbrs| == |color| && Joined(nbrs, color, root, t, {}) && IsEmpty(color, s)
    ensures Joined(nbrs, color[s := c], root[s := s], s, Around(nbrs, s))
  {
    var color' := color[s := c];
    forall p: nat, q: nat | Near(nbrs, p, q) && Stone(color', p) && Stone(color', q) && color'[p] == color'[q]
      ensures root[s := s][p] == root[s := s][q] || (p == s && q in Around(nbrs, s))
        || (q == s && p in Around(nbrs, s)) {
      if p != s && q != s {
        assert Stone(color, p) && Stone(color, q);
      } else {
        assert Near(nbrs, q, p);
      }
    }
  }

  lemma WholeWithStone(nbrs: Adjacency, color: Colors, root: seq<nat>, s: nat, c: nat)
    requires Whole(nbrs, color, root) && IsEmpty(color, s) && c != EMPTY
    ensures Whole(nbrs, color[s := c], root[s := s])
  {
    var color' := color[s := c];
    forall p: nat | Stone(color', p) ensures Connected(nbrs, color', p, root[s := s][p]) {
      if p == s {
        ConnectedSelf(nbrs, color', s);
      } else {
        assert Stone(color, p);
        MoreStones(nbrs, color, color', p, root[p]);
      }
    }
  }

  /** The group of a friendly neighbour `nb` of the new stone, with root `g`, is given to `s`. */
  lemma JoinedMerged(nbrs: Adjacency, color: Colors, root: seq<nat>, s: nat, pend: set<nat>, nb: nat, g: nat)
    requires Joined(nbrs, color, root, s, pend) && Stone(color, s) && Stone(color, nb)
    requires root[nb] == g && root[s] == s
    ensures Joined(nbrs, color, Merged(root, g, s), s, pend - {nb})
  {}

  lemma WholeMerged(nbrs: Adjacency, color: Colors, root: seq<nat>, s: nat, nb: nat, g: nat)
    requires Graph(nbrs) && Whole(nbrs, color, root)
    requires Stone(color, s) && Stone(color, nb) && color[nb] == color[s] && Near(nbrs, s, nb) && root[nb] == g
    ensures Whole(nbrs, color, Merged(root, g, s))
  {
    var root' := Merged(root, g, s);
    forall p: nat | Stone(color, p) ensures Connected(nbrs, color, p, root'[p]) {
      if root[p] == g {
        SameRootConnects(nbrs, color, root, p, nb);
        ConnectedNear(nbrs, color, nb, s);
        ConnectedTrans(nbrs, color, p, nb, s);
      }
    }
  }

  /** A neighbour that is no friend, or already joined, needs no joining. */
  lemma JoinedVisited(nbrs: Adjacency, color: Colors, root: seq<nat>, s: nat, pend: set<nat>, nb: nat)
    requires Joined(nbrs, color, root, s, pend) && Stone(color, s)
    requires Stone(color, nb) && color[nb] == color[s] ==> root[nb] == root[s]
    ensures Joined(nbrs, color, root, s, pend - {nb})
  {}

  lemma JoinedWithout(nbrs: Adjacency, color: Colors, root: seq<nat>, s: nat, pend: set<nat>, gone: set<nat>)
    requires Joined(nbrs, color, root, s, pend)
    ensures Joined(nbrs, Minus(color, gone), root, s, pend)
  {}

  lemma WholeWithout(nbrs: Adjacency, color: Colors, root: seq<nat>, s: nat, pend: set<nat>, g: nat)
    requires Graph(nbrs) && Whole(nbrs, color, root) && Joined(nbrs, color, root, s, pend)
    requires Stone(color, s) && Stone(color, g) && color[g] != color[s] && root[g] == g
    ensures Whole(nbrs, Minus(color, Group(color, root, g)), root)
  {
    var color' := Minus(color, Group(color, root, g));
    forall p: nat | Stone(color', p) ensures Connected(nbrs, color', p, root[p]) {
      assert Stone(color, p);
      forall m: nat | Connected(nbrs, color, p, m) ensures Same(color, color', m) {
        ConnectedIsStones(nbrs, color, p, m);
        if root[m] == g {
          ConnectedIsStones(nbrs, color, m, g);
          ConnectedHasRoot(nbrs, color, root, s, pend, p, m);
        }
      }
      GroupStays(nbrs, color, color', p, root[p]);
    }
  }

  /** For an opponent of the new stone, the stones with its root are exactly its group. */
  lemma GroupIsConnected(nbrs: Adjacency, color: Colors, root: seq<nat>, s: nat, pend: set<nat>, p: nat, q: nat)
    requires Graph(nbrs) && Whole(nbrs, color, root) && Joined(nbrs, color, root, s, pend)
    requires Stone(color, p) && (pend == {} || (Stone(color, s) && color[p] != color[s]))
    ensures q in Group(color, root, root[p]) <==> Connected(nbrs, color, p, q)
  {
    if Connected(nbrs, color, p, q) {
      ConnectedIsStones(nbrs, color, p, q);
      ConnectedHasRoot(nbrs, color, root, s, pend, p, q);
    }
    if q in Group(color, root, root[p]) {
      SameRootConnects(nbrs, color, root, p, q);
    }
  }

  // ---------------------------------------------------------------------
  // Ledges
  // ---------------------------------------------------------------------

  /** The counted pairs whose stone belongs to the group of `g`. */
  function Of(counted: Pairs, root: seq<nat>, g: nat): Pairs {
    set x | x in counted && x.0 < |root| && root[x.0] == g
  }

  ghost predicate Counts(color: Colors, ledges: seq<int>, counted: Pairs, root: seq<nat>) {
    && |ledges| == |root| == |color|
    && forall g: nat :: Stone(color, g) && root[g] == g ==> ledges[g] == |Of(counted, root, g)|
  }

  /** The pairs of a stone and an empty neighbour. */
  ghost predicate Full(nbrs: Adjacency, color: Colors, counted: Pairs) {
    forall m: nat, e: nat :: (m, e) in counted <==> Stone(color, m) && Near(nbrs, m, e) && IsEmpty(color, e)
  }

  /**
    While the new stone on `s` looks at its neighbours: the squares of `pend` are not yet
    counted as its ledges, and the stones of `pend` still count `s` as one of theirs.
   */
  ghost predicate Counted(nbrs: Adjacency, color: Colors, counted: Pairs, s: nat, pend: set<nat>) {
    forall m: nat, e: nat :: (m, e) in counted <==> (
      && Stone(color, m) && Near(nbrs, m, e)
      && if m == s then IsEmpty(color, e) && e !in pend else IsEmpty(color, e) || (e == s && m in pend))
  }

  lemma CountedAll(nbrs: Adjacency, color: Colors, counted: Pairs, s: nat)
    requires Counted(nbrs, color, counted, s, {})
    ensures Full(nbrs, color, counted)
  {}

  lemma CountedWithStone(nbrs: Adjacency, color: Colors, counted: Pairs, s: nat, c: nat)
    requires Graph(nbrs) && |nbrs| == |color| && Full(nbrs, color, counted) && IsEmpty(color, s) && c != EMPTY
    ensures Counted(nbrs, color[s := c], counted, s, Around(nbrs, s))
  {
    var color' := color[s := c];
    forall m: nat, e: nat | Near(nbrs, m, e)
      ensures (m, e) in counted <==> (
        && Stone(color', m)
        && if m == s then IsEmpty(color', e) && e !in Around(nbrs, s)
          else IsEmpty(color', e) || (e == s && m in Around(nbrs, s))) {
      if e == s {
        assert Near(nbrs, s, m);
      }
    }
  }

  lemma CountsWithStone(nbrs: Adjacency, color: Colors, ledges: seq<int>, counted: Pairs, root: seq<nat>, s: nat,
      c: nat)
    requires Counts(color, ledges, counted, root) && Full(nbrs, color, counted) && IsEmpty(color, s) && c != EMPTY
    requires forall p: nat :: Stone(color, p) ==> root[p] != s
    ensures Counts(color[s := c], ledges[s := 0], counted, root[s := s])
  {
    var root' := root[s := s];
    assert Of(counted, root', s) == {};
    forall g: nat | Stone(color, g) && root[g] == g ensures Of(counted, root', g) == Of(counted, root, g) {
    }
  }

  /** A pair more. */
  lemma CountsMore(color: Colors, ledges: seq<int>, counted: Pairs, root: seq<nat>, m: nat, e: nat)
    requires Counts(color, ledges, counted, root) && (m, e) !in counted && m < |root| && root[m] < |root|
    ensures Counts(color, ledges[root[m] := ledges[root[m]] + 1], counted + {(m, e)}, root)
  {
    var r := root[m];
    assert Of(counted + {(m, e)}, root, r) == Of(counted, root, r) + {(m, e)};
    forall g: nat | Stone(color, g) && root[g] == g && g != r
      ensures Of(counted + {(m, e)}, root, g) == Of(counted, root, g) {
    }
  }

  /** A pair less. */
  lemma CountsLess(color: Colors, ledges: seq<int>, counted: Pairs, root: seq<nat>, m: nat, e: nat)
    requires Counts(color, ledges, counted, root) && (m, e) in counted && m < |root| && root[m] < |root|
    ensures Counts(color, ledges[root[m] := ledges[root[m]] - 1], counted - {(m, e)}, root)
  {
    var r := root[m];
    assert Of(counted, root, r) == Of(counted - {(m, e)}, root, r) + {(m, e)};
    forall g: nat | Stone(color, g) && root[g] == g && g != r
      ensures Of(counted - {(m, e)}, root, g) == Of(counted, root, g) {
    }
  }

  lemma CountsMerged(color: Colors, ledges: seq<int>, counted: Pairs, root: seq<nat>, g: nat, s: nat)
    requires Counts(color, ledges, counted, root)
    requires Stone(color, g) && Stone(color, s) && root[g] == g && root[s] == s && g != s
    ensures Counts(color, ledges[s := ledges[s] + ledges[g]], counted, Merged(root, g, s))
  {
    var root' := Merged(root, g, s);
    assert Of(counted, root', s) == Of(counted, root, s) + Of(counted, root, g);
    assert Of(counted, root, s) !! Of(counted, root, g);
    forall h: nat | Stone(color, h) && root'[h] == h && h != s
      ensures root[h] == h && Of(counted, root', h) == Of(counted, root, h) {
    }
  }

  /** An empty neighbour of the new stone is one of its ledges. */
  lemma CountedEmpty(nbrs: Adjacency, color: Colors, counted: Pairs, s: nat, pend: set<nat>, nb: nat)
    requires Counted(nbrs, color, counted, s, pend) && Stone(color, s) && Near(nbrs, s, nb) && nb in pend
      && IsEmpty(color, nb)
    ensures (s, nb) !in counted
    ensures Counted(nbrs, color, counted + {(s, nb)}, s, pend - {nb})
  {}

  /** A stone next to the new one loses a ledge. */
  lemma CountedStone(nbrs: Adjacency, color: Colors, counted: Pairs, s: nat, pend: set<nat>, nb: nat)
    requires Graph(nbrs) && Counted(nbrs, color, counted, s, pend)
    requires Stone(color, s) && Near(nbrs, s, nb) && nb in pend && Stone(color, nb)
    ensures (nb, s) in counted
    ensures Counted(nbrs, color, counted - {(nb, s)}, s, pend - {nb})
  {
    assert Near(nbrs, nb, s);
  }

  /** No counted pair is left: the group of `g` has no ledge and no member still to be looked at. */
  lemma CountIsZero(nbrs: Adjacency, color: Colors, ledges: seq<int>, counted: Pairs, root: seq<nat>, s: nat,
      pend: set<nat>, g: nat)
    requires Graph(nbrs) && Counts(color, ledges, counted, root) && Counted(nbrs, color, counted, s, pend)
    requires Stone(color, s) && Stone(color, g) && root[g] == g && root[s] != g && ledges[g] == 0
    requires forall q :: q in pend ==> Near(nbrs, s, q)
    ensures forall m: nat, e: nat :: m in Group(color, root, g) && Near(nbrs, m, e) ==>
      (m, e) !in counted && !IsEmpty(color, e)
    ensures Group(color, root, g) !! pend
  {
    assert Of(counted, root, g) == {};
    forall m: nat, e: nat | (m, e) in counted ensures m !in Group(color, root, g) {
      assert (m, e) in Of(counted, root, g) <==> m < |root| && root[m] == g;
    }
    forall m | m in Group(color, root, g) ensures m !in pend {
      assert m in pend ==> Near(nbrs, m, s);
    }
  }

  lemma NoLedge(nbrs: Adjacency, color: Colors, root: seq<nat>, s: nat, pend: set<nat>, p: nat)
    requires Joined(nbrs, color, root, s, pend) && Stone(color, p) && Stone(color, s) && color[p] != color[s]
    requires forall m: nat, e: nat :: m in Group(color, root, root[p]) && Near(nbrs, m, e) ==> !IsEmpty(color, e)
    ensures !Breathes(nbrs, color, p)
  {
    if Breathes(nbrs, color, p) {
      var q, e := LedgeOf(nbrs, color, p);
      ConnectedIsStones(nbrs, color, p, q);
      ConnectedHasRoot(nbrs, color, root, s, pend, p, q);
    }
  }

  /** The count at a root is zero exactly when its group has no ledge. */
  lemma CountTellsLedge(nbrs: Adjacency, color: Colors, ledges: seq<int>, counted: Pairs, root: seq<nat>, p: nat)
    requires Graph(nbrs) && Whole(nbrs, color, root) && Counts(color, ledges, counted, root)
      && Full(nbrs, color, counted)
    requires Joined(nbrs, color, root, 0, {})
    requires Stone(color, p) && Stone(color, root[p]) && root[root[p]] == root[p]
    ensures ledges[root[p]] != 0 <==> Breathes(nbrs, color, p)
  {
    if ledges[root[p]] != 0 {
      assert Of(counted, root, root[p]) != {};
      CountedBreathes(nbrs, color, counted, root, p);
    }
    if Breathes(nbrs, color, p) {
      var q, e := LedgeOf(nbrs, color, p);
      ConnectedIsStones(nbrs, color, p, q);
      ConnectedHasRoot(nbrs, color, root, 0, {}, p, q);
      assert (q, e) in counted;
      assert (q, e) in Of(counted, root, root[p]);
    }
  }

  lemma CountedBreathes(nbrs: Adjacency, color: Colors, counted: Pairs, root: seq<nat>, p: nat)
    requires Graph(nbrs) && Whole(nbrs, color, root) && Full(nbrs, color, counted)
    requires Stone(color, p) && Of(counted, root, root[p]) != {}
    ensures Breathes(nbrs, color, p)
  {
    var x :| x in Of(counted, root, root[p]);
    assert (x.0, x.1) in counted;
    SameRootConnects(nbrs, color, root, p, x.0);
  }

  /** CountsMore when the count of the group of `g` does not matter. */
  lemma OthersCountMore(color: Colors, ledges: seq<int>, counted: Pairs, root: seq<nat>, g: nat, m: nat, e: nat)
    requires |ledges| == |root| == |color|
    requires forall h: nat :: Stone(color, h) && root[h] == h && h != g ==> ledges[h] == |Of(counted, root, h)|
    requires (m, e) !in counted && m < |root| && root[m] < |root| && root[m] != g
    ensures var ledges' := ledges[root[m] := ledges[root[m]] + 1];
      forall h: nat :: Stone(color, h) && root[h] == h && h != g ==> ledges'[h] == |Of(counted + {(m, e)}, root, h)|
  {
    var r := root[m];
    assert Of(counted + {(m, e)}, root, r) == Of(counted, root, r) + {(m, e)};
    forall h: nat | Stone(color, h) && root[h] == h && h != r
      ensures Of(counted + {(m, e)}, root, h) == Of(counted, root, h) {
    }
  }

  /** The first `i` entries of a list. */
  function FirstOf(s: seq<nat>, i: nat): set<nat>
    requires i <= |s|
  {
    set k | 0 <= k < i :: s[k]
  }

  lemma FirstOfNext(s: seq<nat>, i: nat)
    requires i < |s|
    ensures FirstOf(s, i + 1) == FirstOf(s, i) + {s[i]}
  {}

  lemma FirstOfNone(s: seq<nat>)
    ensures FirstOf(s, 0) == {}
  {}

  lemma NotYetVisited(nbrs: Adjacency, p: nat, i: nat)
    requires Graph(nbrs) && p < |nbrs| && i < |nbrs[p]|
    ensures nbrs[p][i] !in FirstOf(nbrs[p], i)
  {}

  lemma FirstOfAll(s: seq<nat>)
    ensures FirstOf(s, |s|) == set q | q in s
  {}

  /** The opponent's groups next to `s` outside `pend`, except that of `g`, have a counted ledge. */
  ghost predicate FoesCounted(nbrs: Adjacency, color: Colors, root: seq<nat>, counted: Pairs, s: nat, pend: set<nat>,
      g: nat)
    requires |root| == |color| && s < |color|
  {
    forall q: nat ::
      (Near(nbrs, s, q) && q !in pend && Stone(color, q) && color[q] != color[s] && root[q] != g) ==>
        Of(counted, root, root[q]) != {}
  }

  lemma FoesCountedMore(nbrs: Adjacency, color: Colors, root: seq<nat>, counted: Pairs, s: nat, pend: set<nat>,
      g: nat, x: (nat, nat), nb: nat)
    requires |root| == |color| && s < |color|
    requires !Stone(color, nb) || color[nb] == color[s]
    requires FoesCounted(nbrs, color, root, counted, s, pend, g)
    ensures FoesCounted(nbrs, color, root, counted + {x}, s, pend - {nb}, g)
  {
    forall q: nat | Near(nbrs, s, q) && q !in pend - {nb} && Stone(color, q) && color[q] != color[s] && root[q] != g
      ensures Of(counted + {x}, root, root[q]) != {} {
      assert Of(counted, root, root[q]) <= Of(counted + {x}, root, root[q]);
    }
  }

  lemma FoesCountedMerged(nbrs: Adjacency, color: Colors, root: seq<nat>, counted: Pairs, s: nat, pend: set<nat>,
      g: nat, r: nat, nb: nat)
    requires |root| == |color| && s < |color| && Stone(color, nb) && color[nb] == color[s] && root[nb] == r
    requires Whole(nbrs, color, root) && Graph(nbrs) && Stone(color, s) && root[s] == s
    requires FoesCounted(nbrs, color, root, counted, s, pend, g)
    ensures FoesCounted(nbrs, color, Merged(root, r, s), counted, s, pend, g)
  {
    var root' := Merged(root, r, s);
    forall q: nat | Near(nbrs, s, q) && q !in pend && Stone(color, q) && color[q] != color[s] && root'[q] != g
      ensures Of(counted, root', root'[q]) != {} {
      RootsDiffer(nbrs, color, root, q, nb);
      assert Of(counted, root, root[q]) <= Of(counted, root', root'[q]);
    }
  }

  lemma RootsDiffer(nbrs: Adjacency, color: Colors, root: seq<nat>, p: nat, q: nat)
    requires Graph(nbrs) && Whole(nbrs, color, root) && Stone(color, p) && Stone(color, q) && color[p] != color[q]
    ensures root[p] != root[q]
  {
    ConnectedIsStones(nbrs, color, p, root[p]);
    ConnectedIsStones(nbrs, color, q, root[q]);
  }

  lemma MergedAt(root: seq<nat>, g: nat, s: nat)
    ensures forall p :: 0 <= p < |root| ==> Merged(root, g, s)[p] == if root[p] == g then s else root[p]
  {}

  /** A stone's lost ledge `s` leaves the other colour's counts alone; its own group may lose its last. */
  lemma OfWithout(counted: Pairs, root: seq<nat>, g: nat, m: nat, e: nat)
    requires m < |root| && root[m] != g
    ensures Of(counted - {(m, e)}, root, g) == Of(counted, root, g)
  {}

  lemma FoesCountedLess(nbrs: Adjacency, color: Colors, root: seq<nat>, counted: Pairs, s: nat, pend: set<nat>,
      g: nat, nb: nat)
    requires |root| == |color| && Stone(color, s) && Stone(color, nb)
    requires Whole(nbrs, color, root) && Graph(nbrs)
    requires FoesCounted(nbrs, color, root, counted, s, pend, g)
    requires color[nb] == color[s] || root[nb] == g
    ensures FoesCounted(nbrs, color, root, counted - {(nb, s)}, s, pend - {nb}, g)
  {
    forall q: nat | Near(nbrs, s, q) && q !in pend - {nb} && Stone(color, q) && color[q] != color[s] && root[q] != g
      ensures Of(counted - {(nb, s)}, root, root[q]) != {} {
      if color[nb] == color[s] {
        RootsDiffer(nbrs, color, root, q, nb);
      }
      OfWithout(counted, root, root[q], nb, s);
    }
  }

  lemma FoesCountedExcept(nbrs: Adjacency, color: Colors, root: seq<nat>, counted: Pairs, s: nat, pend: set<nat>,
      g: nat)
    requires |root| == |color| == |nbrs| && s < |color| && FoesCounted(nbrs, color, root, counted, s, pend, |nbrs|)
    requires Whole(nbrs, color, root)
    ensures FoesCounted(nbrs, color, root, counted, s, pend, g)
  {
    forall q: nat | Stone(color, q) ensures root[q] != |nbrs| {
      ConnectedIsStones(nbrs, color, q, root[q]);
    }
  }

  lemma CountNotZero(color: Colors, ledges: seq<int>, counted: Pairs, root: seq<nat>, g: nat)
    requires Counts(color, ledges, counted, root) && Stone(color, g) && root[g] == g && ledges[g] != 0
    ensures Of(counted, root, g) != {}
  {}

  lemma FoesCountedAll(nbrs: Adjacency, color: Colors, root: seq<nat>, counted: Pairs, s: nat, pend: set<nat>, g: nat,
      r: nat)
    requires |root| == |color| && s < |color| && FoesCounted(nbrs, color, root, counted, s, pend, r)
    requires Of(counted, root, r) != {}
    ensures FoesCounted(nbrs, color, root, counted, s, pend, g)
  {}

  /** A removal only adds counted pairs. */
  lemma FoesCountedWithout(nbrs: Adjacency, color: Colors, root: seq<nat>, counted: Pairs, counted': Pairs, s: nat,
      pend: set<nat>, g: nat, r: nat)
    requires |root| == |color| && Stone(color, s) && s !in Group(color, root, r)
    requires FoesCounted(nbrs, color, root, counted, s, pend, r) && counted <= counted'
    ensures FoesCounted(nbrs, Minus(color, Group(color, root, r)), root, counted', s, pend, g)
  {
    var color' := Minus(color, Group(color, root, r));
    forall q: nat | Near(nbrs, s, q) && q !in pend && Stone(color', q) && color'[q] != color'[s] && root[q] != g
      ensures Of(counted', root, root[q]) != {} {
      assert Stone(color, q) && root[q] != r;
      assert Of(counted, root, root[q]) <= Of(counted', root, root[q]);
    }
  }

  // ---------------------------------------------------------------------
  // Removing a group, square by square
  // ---------------------------------------------------------------------

  /** Squares removed since `gone0` had all their neighbours in the group removed too. */
  ghost predicate Explored(nbrs: Adjacency, group: set<nat>, gone0: set<nat>, gone: set<nat>) {
    && gone0 <= gone <= group
    && forall q: nat, m: nat :: q in gone && q !in gone0 && Near(nbrs, q, m) && m in group ==> m in gone
  }

  /** The same for all squares but `p`, of which only `visited` neighbours were looked at. */
  ghost predicate Exploring(nbrs: Adjacency, group: set<nat>, gone0: set<nat>, gone: set<nat>, p: nat,
      visited: set<nat>) {
    && gone0 <= gone <= group && p in gone
    && (forall q: nat, m: nat :: q in gone && q !in gone0 && q != p && Near(nbrs, q, m) && m in group ==> m in gone)
    && (forall m :: m in visited && m in group ==> m in gone)
  }

  lemma StartTry(nbrs: Adjacency, group: set<nat>, gone0: set<nat>, p: nat)
    requires gone0 <= group && p in group
    ensures Exploring(nbrs, group, gone0, gone0 + {p}, p, {})
  {}

  lemma ExploredWithin(nbrs: Adjacency, group: set<nat>, gone0: set<nat>, gone: set<nat>)
    requires Explored(nbrs, group, gone0, gone)
    ensures gone0 <= gone <= group
  {}

  lemma ExploringOne(nbrs: Adjacency, group: set<nat>, gone0: set<nat>, gone: set<nat>, p: nat, visited: set<nat>,
      m: nat)
    requires Exploring(nbrs, group, gone0, gone, p, visited) && (m in group ==> m in gone)
    ensures Exploring(nbrs, group, gone0, gone, p, visited + {m})
  {}

  lemma ExploringMore(nbrs: Adjacency, group: set<nat>, gone0: set<nat>, gone: set<nat>, gone': set<nat>, p: nat,
      visited: set<nat>, m: nat)
    requires Exploring(nbrs, group, gone0, gone, p, visited)
    requires Explored(nbrs, group, gone, gone') && m in gone'
    ensures Exploring(nbrs, group, gone0, gone', p, visited + {m})
  {}

  lemma ExploringDone(nbrs: Adjacency, group: set<nat>, gone0: set<nat>, gone: set<nat>, p: nat, visited: set<nat>)
    requires Exploring(nbrs, group, gone0, gone, p, visited) && p < |nbrs| && visited == Around(nbrs, p)
    ensures Explored(nbrs, group, gone0, gone)
  {}

  /** Starting from nothing, the removal takes the whole group. */
  lemma ExploredAll(nbrs: Adjacency, color: Colors, root: seq<nat>, p: nat, gone: set<nat>)
    requires Graph(nbrs) && Whole(nbrs, color, root) && Stone(color, p)
    requires Explored(nbrs, Group(color, root, root[p]), {}, gone) && p in gone
    requires forall m: nat, q: nat ::
      m in Group(color, root, root[p]) && Near(nbrs, m, q) && Stone(color, q) && color[q] == color[m] ==>
        root[q] == root[m]
    ensures gone == Group(color, root, root[p])
  {
    var group := Group(color, root, root[p]);
    forall q | q in group ensures q in gone {
      SameRootConnects(nbrs, color, root, p, q);
      forall m: nat, r: nat | m in gone && Near(nbrs, m, r) && Stone(color, m) && Stone(color, r)
        && color[m] == color[r]
        ensures r in gone {
        assert r in group;
      }
      ConnectedStaysIn(nbrs, color, gone, p, q);
    }
  }

  /** The pairs that a removal adds: other stones next to a removed square. */
  ghost predicate Added(nbrs: Adjacency, color: Colors, group: set<nat>, counted0: Pairs, counted: Pairs,
      gone0: set<nat>, gone: set<nat>) {
    forall m: nat, e: nat :: (m, e) in counted <==>
      (m, e) in counted0 || (e in gone && e !in gone0 && Near(nbrs, m, e) && Stone(color, m) && m !in group)
  }

  ghost predicate Adding(nbrs: Adjacency, color: Colors, group: set<nat>, counted0: Pairs, counted: Pairs,
    gone0: set<nat>, gone: set<nat>, p: nat, visited: set<nat>)
  {
    forall m: nat, e: nat :: (m, e) in counted <==>
      (m, e) in counted0
      || (e in gone && e !in gone0 && e != p && Near(nbrs, m, e) && Stone(color, m) && m !in group)
      || (e == p && m in visited && Stone(color, m) && m !in group)
  }

  lemma AddingOne(nbrs: Adjacency, color: Colors, group: set<nat>, counted0: Pairs, counted: Pairs,
    gone0: set<nat>, gone: set<nat>, p: nat, visited: set<nat>, m: nat)
    requires Adding(nbrs, color, group, counted0, counted, gone0, gone, p, visited)
    requires Stone(color, m) && m !in group
    ensures Adding(nbrs, color, group, counted0, counted + {(m, p)}, gone0, gone, p, visited + {m})
  {}

  lemma AddingNew(nbrs: Adjacency, color: Colors, group: set<nat>, counted0: Pairs, counted: Pairs,
    gone0: set<nat>, gone: set<nat>, p: nat, visited: set<nat>, m: nat)
    requires Adding(nbrs, color, group, counted0, counted, gone0, gone, p, visited)
    requires m !in visited && (m, p) !in counted0
    ensures (m, p) !in counted
  {}

  lemma StartVisit(nbrs: Adjacency, color: Colors, group: set<nat>, counted: Pairs, gone0: set<nat>, p: nat)
    requires gone0 <= group && p in group
    ensures Exploring(nbrs, group, gone0, gone0 + {p}, p, {})
    ensures Adding(nbrs, color, group, counted, counted, gone0, gone0 + {p}, p, {})
  {}

  lemma CardMonotone(a: set<nat>, b: set<nat>)
    requires a <= b
    ensures |a| <= |b|
  {
    var c := b - a;
    assert b == a + c;
  }

  lemma AddingSkip(nbrs: Adjacency, color: Colors, group: set<nat>, counted0: Pairs, counted: Pairs,
    gone0: set<nat>, gone: set<nat>, p: nat, visited: set<nat>, m: nat)
    requires Adding(nbrs, color, group, counted0, counted, gone0, gone, p, visited)
    requires !Stone(color, m) || m in group
    ensures Adding(nbrs, color, group, counted0, counted, gone0, gone, p, visited + {m})
  {}

  lemma AddingMore(nbrs: Adjacency, color: Colors, group: set<nat>, counted0: Pairs, counted: Pairs, counted': Pairs,
    gone0: set<nat>, gone: set<nat>, gone': set<nat>, p: nat, visited: set<nat>, m: nat)
    requires Adding(nbrs, color, group, counted0, counted, gone0, gone, p, visited)
    requires Added(nbrs, color, group, counted, counted', gone, gone') && gone0 <= gone <= gone' && p in gone
      && m in group
    ensures Adding(nbrs, color, group, counted0, counted', gone0, gone', p, visited + {m})
  {}

  lemma AddingDone(nbrs: Adjacency, color: Colors, group: set<nat>, counted0: Pairs, counted: Pairs,
    gone0: set<nat>, gone: set<nat>, p: nat, visited: set<nat>)
    requires Graph(nbrs) && Adding(nbrs, color, group, counted0, counted, gone0, gone, p, visited)
    requires p < |nbrs| && visited == Around(nbrs, p) && p in gone && p !in gone0
    ensures Added(nbrs, color, group, counted0, counted, gone0, gone)
  {
    forall m: nat ensures Near(nbrs, m, p) <==> m in visited {
      if Near(nbrs, m, p) {
        assert Near(nbrs, p, m);
      }
      if m in visited {
        assert Near(nbrs, p, m);
      }
    }
  }

  /** After the removal of a group without ledges the counted pairs fit the new position. */
  lemma CountedWithout(nbrs: Adjacency, color: Colors, root: seq<nat>, counted: Pairs, counted': Pairs, s: nat,
      pend: set<nat>, g: nat)
    requires |root| == |color| == |nbrs| && Graph(nbrs) && Counted(nbrs, color, counted, s, pend) && Stone(color, s)
    requires Added(nbrs, color, Group(color, root, g), counted, counted', {}, Group(color, root, g))
    requires forall m: nat, e: nat :: m in Group(color, root, g) && Near(nbrs, m, e) ==> (m, e) !in counted
    requires Group(color, root, g) !! pend && root[s] != g
    ensures Counted(nbrs, Minus(color, Group(color, root, g)), counted', s, pend)
  {
    var group := Group(color, root, g);
    var color' := Minus(color, group);
    forall m: nat, e: nat | Near(nbrs, m, e)
      ensures (m, e) in counted' <==> (
        && Stone(color', m)
        && if m == s then IsEmpty(color', e) && e !in pend else IsEmpty(color', e) || (e == s && m in pend)) {
      if m in group {
        assert (m, e) !in counted;
      }
    }
  }

  lemma CountsWithout(color: Colors, ledges: seq<int>, counted: Pairs, root: seq<nat>, gone: set<nat>, g: nat)
    requires |ledges| == |root| == |color|
    requires forall h: nat :: Stone(color, h) && root[h] == h && h != g ==> ledges[h] == |Of(counted, root, h)|
    requires Stone(color, g) && root[g] == g ==> g in gone
    ensures Counts(Minus(color, gone), ledges, counted, root)
  {}

  // ---------------------------------------------------------------------
  // A capture while the stone on `s` is being placed
  // ---------------------------------------------------------------------

  lemma CaptureTakesAll(nbrs: Adjacency, color: Colors, root: seq<nat>, s: nat, pend: set<nat>, nb: nat, gone: set<nat>)
    requires Graph(nbrs) && Whole(nbrs, color, root) && Joined(nbrs, color, root, s, pend)
    requires Stone(color, s) && Stone(color, nb) && color[nb] != color[s]
    requires Explored(nbrs, Group(color, root, root[nb]), {}, gone) && nb in gone
    ensures gone == Group(color, root, root[nb])
  {
    hide Explored, Graph, Connected, Whole;
    forall m: nat, q: nat | m in Group(color, root, root[nb]) && Near(nbrs, m, q) && Stone(color, q)
      && color[q] == color[m]
      ensures root[q] == root[m] {
      SameRootConnects(nbrs, color, root, m, nb);
      ConnectedIsStones(nbrs, color, m, nb);
    }
    ExploredAll(nbrs, color, root, nb, gone);
  }

  lemma CaptureKeepsGroups(nbrs: Adjacency, color: Colors, root: seq<nat>, s: nat, pend: set<nat>, nb: nat)
    requires Graph(nbrs) && Whole(nbrs, color, root) && Joined(nbrs, color, root, s, pend)
    requires Stone(color, s) && Stone(color, nb) && color[nb] != color[s] && root[root[nb]] == root[nb]
    ensures Joined(nbrs, Minus(color, Group(color, root, root[nb])), root, s, pend)
    ensures Whole(nbrs, Minus(color, Group(color, root, root[nb])), root)
    ensures root[s] != root[nb]
  {
    ConnectedIsStones(nbrs, color, nb, root[nb]);
    RootsDiffer(nbrs, color, root, s, nb);
    JoinedWithout(nbrs, color, root, s, pend, Group(color, root, root[nb]));
    WholeWithout(nbrs, color, root, s, pend, root[nb]);
  }

  lemma CaptureKeepsCounts(nbrs: Adjacency, color: Colors, ledges: seq<int>, counted: Pairs, counted': Pairs,
    root: seq<nat>, s: nat, pend: set<nat>, r: nat)
    requires |root| == |ledges| == |color| == |nbrs| && Graph(nbrs) && Stone(color, s) && root[s] != r
      && Stone(color, r) && root[r] == r
    requires Counted(nbrs, color, counted, s, pend) && FoesCounted(nbrs, color, root, counted, s, pend, r)
    requires Added(nbrs, color, Group(color, root, r), counted, counted', {}, Group(color, root, r))
    requires forall m: nat, e: nat :: m in Group(color, root, r) && Near(nbrs, m, e) ==> (m, e) !in counted
    requires Group(color, root, r) !! pend
    requires forall h: nat :: Stone(color, h) && root[h] == h && h != r ==> ledges[h] == |Of(counted', root, h)|
    ensures Counted(nbrs, Minus(color, Group(color, root, r)), counted', s, pend)
    ensures Counts(Minus(color, Group(color, root, r)), ledges, counted', root)
    ensures FoesCounted(nbrs, Minus(color, Group(color, root, r)), root, counted', s, pend, |nbrs|)
  {
    CountedWithout(nbrs, color, root, counted, counted', s, pend, r);
    CountsWithout(color, ledges, counted', root, Group(color, root, r), r);
    AddedMore(nbrs, color, Group(color, root, r), counted, counted', {}, Group(color, root, r));
    FoesCountedWithout(nbrs, color, root, counted, counted', s, pend, |nbrs|, r);
  }

  lemma AddedMore(nbrs: Adjacency, color: Colors, group: set<nat>, counted: Pairs, counted': Pairs, gone: set<nat>,
      gone': set<nat>)
    requires Added(nbrs, color, group, counted, counted', gone, gone')
    ensures counted <= counted'
  {
    forall x | x in counted ensures x in counted' {
      assert (x.0, x.1) in counted;
    }
  }

  lemma CaptureIsTaken(nbrs: Adjacency, before: Colors, color: Colors, root: seq<nat>, s: nat, c: nat, pend: set<nat>,
      nb: nat)
    requires Graph(nbrs) && Whole(nbrs, color, root) && Joined(nbrs, color, root, s, pend)
    requires (c == WHITE || c == BLACK) && Position(nbrs, before) && IsEmpty(before, s)
    requires Taken(nbrs, before[s := c], color, s, c)
    requires Stone(color, s) && Stone(color, nb) && color[nb] != color[s] && Near(nbrs, s, nb)
      && !Breathes(nbrs, color, nb)
    ensures Taken(nbrs, before[s := c], Minus(color, Group(color, root, root[nb])), s, c)
  {
    var color' := Minus(color, Group(color, root, root[nb]));
    TakenOnlyOpponents(nbrs, before[s := c], color, s, c, s);
    TakenOnlyOpponents(nbrs, before[s := c], color, s, c, nb);
    hide Taken, Breathes;
    forall q: nat | q < |color| ensures color'[q] == if Connected(nbrs, color, nb, q) then EMPTY else color[q] {
      GroupIsConnected(nbrs, color, root, s, pend, nb, q);
    }
    TakeGroup(nbrs, before[s := c], color, color', s, c, nb);
  }
}
