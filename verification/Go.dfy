/**
  The Go board of own/go.py. A Square of the source is a position here, and its attributes
  are sequences indexed by position; the lists and numbers are updated in place as there.
 */
module Go {

  import opened GoRules
  import opened GoGroups
  import opened GoEmptySet
  import opened GoZobrist
  import opened GoTally

  const PASS: int := -1
  const SIZE: nat := 9
  const SQUARES: nat := 81

  /** The neighbours of a square: left, right, up and down, as far as the board reaches. */
  function Neighbours(pos: nat): seq<nat> {
    var x, y := pos % SIZE, pos / SIZE;
    (if x > 0 then [pos - 1] else [])
    + (if x + 1 < SIZE then [pos + 1] else [])
    + (if y > 0 then [pos - SIZE] else [])
    + (if y + 1 < SIZE then [pos + SIZE] else [])
  }

  predicate Besides(p: nat, q: nat) {
    || (p % SIZE > 0 && q == p - 1)
    || (p % SIZE + 1 < SIZE && q == p + 1)
    || (p / SIZE > 0 && q == p - SIZE)
    || (p / SIZE + 1 < SIZE && q == p + SIZE)
  }

  lemma NeighboursAre(p: nat, q: nat)
    ensures q in Neighbours(p) <==> Besides(p, q)
  {}

  lemma BesidesBack(p: nat, q: nat)
    requires p < SQUARES && Besides(p, q)
    ensures q < SQUARES && q != p && Besides(q, p)
  {}

  lemma NeighboursDiffer(p: nat, i: nat, j: nat)
    requires i < j < |Neighbours(p)|
    ensures Neighbours(p)[i] != Neighbours(p)[j]
  {}

  function Grid(): (r: Adjacency)
    ensures |r| == SQUARES
  {
    seq(SQUARES, pos requires 0 <= pos < SQUARES => Neighbours(pos))
  }

  lemma GridIsGraph()
    ensures Graph(Grid())
  {
    hide Neighbours, Besides;
    var nbrs := Grid();
    forall p: nat, q: nat | Near(nbrs, p, q) ensures q < |nbrs| && q != p && Near(nbrs, q, p) {
      NeighboursAre(p, q);
      BesidesBack(p, q);
      NeighboursAre(q, p);
    }
    forall p: nat, i: nat, j: nat | p < |nbrs| && i < j < |nbrs[p]| ensures nbrs[p][i] != nbrs[p][j] {
      NeighboursDiffer(p, i, j);
    }
  }

  function AllEmpty(n: nat): (r: Colors)
    ensures |r| == n && forall p :: 0 <= p < n ==> r[p] == EMPTY
  {
    seq(n, _ => EMPTY)
  }

  predicate HasColor(color: Colors, p: nat, c: nat) {
    p < |color| && color[p] == c
  }

  lemma PositionWith(nbrs: Adjacency, color: Colors, s: nat, c: nat)
    requires Position(nbrs, color) && s < |color| && c <= 2
    ensures Position(nbrs, color[s := c]) && |color| == |nbrs|
  {}

  /** `hashes` are those of the positions in `seen`, which have no stone on an unused square. */
  ghost predicate Recorded(z: Strings, seen: set<Colors>, used: seq<bool>, hashes: set<Hash>) {
    && (forall b :: b in seen ==> Fits(z, b) && |b| == |used| && HashOf(z, b) in hashes)
    && (forall h :: h in hashes ==> exists b :: b in seen && Fits(z, b) && HashOf(z, b) == h)
    && (forall b, p: nat :: b in seen && Stone(b, p) && p < |used| ==> used[p])
  }

  lemma RecordedStart(z: Strings, used: seq<bool>, color: Colors)
    requires Fits(z, color) && |color| == |used| && forall p :: 0 <= p < |color| ==> color[p] == EMPTY
    ensures Recorded(z, {color}, used, {HashOf(z, color)})
  {
    assert color in {color};
  }

  lemma NoStones(nbrs: Adjacency, reference: seq<nat>, root: seq<nat>, born: seq<nat>, ledges: seq<int>)
    requires |reference| == |root| == |born| == |ledges| == |nbrs|
    ensures var color := AllEmpty(|nbrs|);
      && Forest(color, reference, root, born) && Joined(nbrs, color, root, 0, {}) && Whole(nbrs, color, root)
      && Full(nbrs, color, {}) && Counts(color, ledges, {}, root)
  {}

  lemma RecordedFits(z: Strings, seen: set<Colors>, used: seq<bool>, hashes: set<Hash>, b: Colors)
    requires Recorded(z, seen, used, hashes) && b in seen
    ensures Fits(z, b)
  {}

  lemma RecordedMore(z: Strings, seen: set<Colors>, used: seq<bool>, hashes: set<Hash>, before: Colors, color: Colors,
      s: nat)
    requires Recorded(z, seen, used, hashes) && before in seen && s < |used|
    requires Fits(z, color) && |color| == |used|
    requires forall p: nat :: Stone(color, p) && p != s ==> Stone(before, p)
    ensures Recorded(z, seen + {color}, used[s := true], hashes + {HashOf(z, color)})
  {
    hide HashOf;
    var seen', hashes' := seen + {color}, hashes + {HashOf(z, color)};
    forall h | h in hashes' ensures exists b :: b in seen' && Fits(z, b) && HashOf(z, b) == h {
      if h in hashes {
        var b :| b in seen && Fits(z, b) && HashOf(z, b) == h;
        assert b in seen';
      } else {
        assert color in seen';
      }
    }
  }

  lemma TakenFits(nbrs: Adjacency, before: Colors, color: Colors, z: Strings, s: nat, c: nat)
    requires (c == WHITE || c == BLACK) && IsEmpty(before, s) && Fits(z, before)
    requires Taken(nbrs, before[s := c], color, s, c)
    ensures Fits(z, color) && |color| == |before|
    ensures forall p: nat :: Stone(color, p) && p != s ==> Stone(before, p)
  {}

  /** The pairs of a member of the group of `p` and an empty neighbour of it. */
  ghost function LedgePairs(nbrs: Adjacency, color: Colors, p: nat): Pairs {
    set m: nat, e: nat | m < |color| && e < |color| && Connected(nbrs, color, p, m) && Near(nbrs, m, e)
      && IsEmpty(color, e) :: (m, e)
  }

  /** The moves that placed a stone. */
  function Stones(moves: seq<int>): (n: nat)
    ensures n <= |moves|
  {
    if moves == [] then 0 else Stones(moves[..|moves| - 1]) + (if moves[|moves| - 1] == PASS then 0 else 1)
  }

  lemma StonesMore(moves: seq<int>, pos: int)
    ensures Stones(moves + [pos]) == Stones(moves) + (if pos == PASS then 0 else 1)
  {
    assert (moves + [pos])[..|moves|] == moves;
  }

  class Board {
    const nbrs: Adjacency
    const zobristStrings: Strings
    var color: Colors
    var reference: seq<nat>
    var ledges: seq<int>
    var tempLedges: seq<int>
    var used: seq<bool>
    var timestamp: seq<nat>
    var removestamp: seq<nat>
    var emptyset: EmptySet
    var zobrist: ZobristHash
    var toMove: nat
    var lastMove: int
    var finished: bool
    var history: seq<int>
    var now: nat

    /** The root of every stone, the time of its move, and the ledges that are counted. */
    ghost var root: seq<nat>
    ghost var born: seq<nat>
    ghost var counted: Pairs

    /** Every position since the last reset. */
    ghost var seen: set<Colors>

    // -------------------------------------------------------------------
    // Parts of the invariant
    // -------------------------------------------------------------------

    ghost predicate Sizes()
      reads this`color, this`reference, this`ledges, this`used, this`root, this`born
    {
      && Graph(nbrs) && Position(nbrs, color)
      && |reference| == |ledges| == |used| == |nbrs|
      && |root| == |born| == |nbrs|
    }

    /** References are a forest over the stones of `shape`, the present ones and those being removed. */
    ghost predicate References(shape: Colors)
      reads this`reference, this`root, this`born, this`now
    {
      && Forest(shape, reference, root, born)
      && forall p: nat :: Stone(shape, p) ==> born[p] <= now
    }

    ghost predicate Stamps()
      reads this`removestamp, this`color, this`now
    {
      && |removestamp| == |color|
      && (forall p :: 0 <= p < |removestamp| ==> removestamp[p] <= now)
      && (forall p: nat :: Stone(color, p) ==> removestamp[p] != now)
    }

    /** The index lists the empty squares, and `s` as well while its move is in progress. */
    ghost predicate Indexed(extra: set<nat>)
      reads this`color, this`emptyset, emptyset
    {
      && emptyset.Valid() && |emptyset.emptyPos| == |color|
      && forall p: nat :: p in emptyset.Points() <==> IsEmpty(color, p) || (p in extra && p < |color|)
    }

    ghost predicate Hashed(shown: Colors)
      reads this`zobrist, zobrist
    {
      && zobrist.strings == zobristStrings
      && Fits(zobristStrings, shown)
      && zobrist.hash == HashOf(zobristStrings, shown)
    }

    /** `gone` has been removed from the group of `g` in `shape`; the other groups count correctly. */
    ghost predicate Removing(g: nat, shape: Colors, gone: set<nat>, extra: set<nat>)
      reads this, emptyset, zobrist
    {
      && Sizes() && Position(nbrs, shape)
      && color == Minus(shape, gone)
      && References(shape) && Stamps() && Indexed(extra) && Hashed(color)
      && OthersCount(g, shape)
    }

    ghost predicate OthersCount(g: nat, shape: Colors)
      reads this`ledges, this`root, this`counted
    {
      && |ledges| == |root| == |shape|
      && forall h: nat :: Stone(shape, h) && root[h] == h && h != g ==> ledges[h] == |Of(counted, root, h)|
    }

    /** No pair is counted yet for a square that is still to be removed. */
    ghost predicate Uncounted(group: set<nat>, gone: set<nat>)
      reads this`counted
    {
      forall m: nat, e: nat :: (m, e) in counted && e in group ==> e in gone
    }

    /** Ledges and groups are those of the position. */
    ghost predicate Grouped()
      reads this`color, this`reference, this`ledges, this`used, this`root, this`born, this`counted, this`now
    {
      && Sizes() && References(color)
      && Joined(nbrs, color, root, 0, {}) && Whole(nbrs, color, root)
      && Full(nbrs, color, counted) && Counts(color, ledges, counted, root)
    }

    /** The history has the hash of every position; a square is unused if no position has a stone there. */
    ghost predicate Remembered()
      reads this`color, this`used, this`seen, this`zobrist, zobrist
    {
      && Hashed(color)
      && color in seen
      && Recorded(zobristStrings, seen, used, zobrist.hashSet)
    }

    ghost predicate Timely()
      reads this`removestamp, this`timestamp, this`tempLedges, this`now
    {
      && |removestamp| == |timestamp| == |tempLedges| == |nbrs|
      && forall p :: 0 <= p < |removestamp| ==> removestamp[p] <= now && timestamp[p] <= now
    }

    ghost predicate Valid()
      reads this, emptyset, zobrist
    {
      && Grouped() && Indexed({}) && Remembered()
      && (toMove == WHITE || toMove == BLACK)
      && Timely()
    }

    constructor (strings: Strings)
      requires |strings| == SQUARES && forall p :: 0 <= p < |strings| ==> |strings[p]| == 3
      ensures Valid() && fresh(emptyset) && fresh(zobrist)
      ensures color == AllEmpty(SQUARES) && seen == {color} && nbrs == Grid() && toMove == BLACK
    {
      hide Graph, HashOf, Neighbours;
      var empty := AllEmpty(SQUARES);
      nbrs, zobristStrings, color := Grid(), strings, empty;
      reference, ledges, tempLedges := empty, empty, empty;
      used := seq(SQUARES, _ => false);
      timestamp, removestamp := empty, empty;
      emptyset := new EmptySet(SQUARES);
      zobrist := new ZobristHash(strings, empty);
      toMove, lastMove, finished, history, now := BLACK, -2, false, [], 0;
      root, born, counted, seen := empty, empty, {}, {empty};
      GridIsGraph();
    }

    // -------------------------------------------------------------------
    // Finding a root and removing a group
    // -------------------------------------------------------------------

    method Find(p: nat, update: bool, ghost shape: Colors) returns (r: nat)
      requires References(shape) && Stone(shape, p)
      modifies this`reference
      ensures r == root[p]
      ensures References(shape) && |reference| == old(|reference|)
      ensures !update ==> reference == old(reference)
      decreases now - born[p]
    {
      hide Forest;
      FollowReference(shape, reference, root, born, p);
      r := reference[p];
      if r != p {
        r := Find(r, update, shape);
        if update {
          FollowReference(shape, reference, root, born, p);
          ForestCompressed(shape, reference, root, born, p);
          reference := reference[p := r];
        }
      }
    }

    /** The first statements of Square.remove: the square becomes empty. */
    method Clear(p: nat, ghost g: nat, ghost shape: Colors, ghost gone: set<nat>, ghost extra: set<nat>)
      requires Removing(g, shape, gone, extra)
      requires Stone(shape, p) && p !in gone && p !in extra
      modifies this`color, this`removestamp, emptyset, zobrist`hash
      ensures Removing(g, shape, gone + {p}, extra)
    {
      hide Graph, Forest, HashOf, Of;
      zobrist.Update(p, color[p], EMPTY, color);
      removestamp := removestamp[p := now];
      color := color[p := EMPTY];
      emptyset.Add(p);
      assert color == Minus(shape, gone + {p});
    }

    /** One more ledge for the group of the stone `m`: the removed square `e`. */
    method CountLedge(m: nat, e: nat, r: nat, ghost g: nat, ghost shape: Colors, ghost gone: set<nat>,
        ghost extra: set<nat>)
      requires Removing(g, shape, gone, extra)
      requires Stone(shape, m) && root[m] == r && r != g && (m, e) !in counted
      modifies this`ledges, this`counted
      ensures Removing(g, shape, gone, extra)
      ensures counted == old(counted) + {(m, e)}
    {
      hide Graph, HashOf, Of;
      assert Linked(shape, reference, root, born, m);
      OthersCountMore(shape, ledges, counted, root, g, m, e);
      ledges := ledges[r := ledges[r] + 1];
      counted := counted + {(m, e)};
    }

    /** Removes a square and then, recursively, the neighbours that have the same root. */
    method Remove(p: nat, g: nat, ghost shape: Colors, ghost gone0: set<nat>, ghost extra: set<nat>)
      returns (ghost gone: set<nat>)
      requires Removing(g, shape, gone0, extra)
      requires p in Group(shape, root, g) && p !in gone0
      requires gone0 <= Group(shape, root, g) && Group(shape, root, g) !! extra
      requires Uncounted(Group(shape, root, g), gone0)
      modifies this`color, this`reference, this`ledges, this`removestamp, this`counted, emptyset, zobrist`hash
      ensures Removing(g, shape, gone, extra)
      ensures p in gone
      ensures Explored(nbrs, Group(shape, root, g), gone0, gone)
      ensures Added(nbrs, shape, Group(shape, root, g), old(counted), counted, gone0, gone)
      ensures Uncounted(Group(shape, root, g), gone)
      decreases |Group(shape, root, g) - gone0|, 0
    {
      hide Explored, Exploring, Added, Adding, Forest, Graph, HashOf, Removing, FirstOf, Group, Uncounted;
      RemovingSquare(p, g, shape, gone0, extra);
      UncountedMore(Group(shape, root, g), gone0, p);
      ghost var group := Group(shape, root, g);
      ghost var counted0 := counted;
      Clear(p, g, shape, gone0, extra);
      gone := gone0 + {p};
      assert group - gone0 == (group - gone) + {p};
      StartVisit(nbrs, shape, group, counted, gone0, p);
      FirstOfNone(nbrs[p]);
      for i := 0 to |nbrs[p]|
        invariant Removing(g, shape, gone, extra)
        invariant Exploring(nbrs, group, gone0, gone, p, FirstOf(nbrs[p], i))
        invariant Adding(nbrs, shape, group, counted0, counted, gone0, gone, p, FirstOf(nbrs[p], i))
        invariant Uncounted(group, gone)
        invariant gone0 + {p} <= gone <= group
      {
        assert group - gone <= group - (gone0 + {p});
        CardMonotone(group - gone, group - (gone0 + {p}));
        gone := VisitRemoved(p, i, g, shape, gone0, counted0, gone, extra);
        FirstOfNext(nbrs[p], i);
      }
      FirstOfAll(nbrs[p]);
      ExploringDone(nbrs, group, gone0, gone, p, FirstOf(nbrs[p], |nbrs[p]|));
      AddingDone(nbrs, shape, group, counted0, counted, gone0, gone, p, FirstOf(nbrs[p], |nbrs[p]|));
    }

    method FindRemoving(m: nat, ghost g: nat, ghost shape: Colors, ghost gone: set<nat>, ghost extra: set<nat>)
      returns (r: nat)
      requires Removing(g, shape, gone, extra) && Stone(shape, m)
      modifies this`reference
      ensures Removing(g, shape, gone, extra)
      ensures r == root[m]
    {
      hide Graph, Forest, HashOf, Of;
      r := Find(m, true, shape);
    }

    lemma RemovingSquare(p: nat, g: nat, shape: Colors, gone: set<nat>, extra: set<nat>)
      requires Removing(g, shape, gone, extra)
      ensures |root| == |shape| == |nbrs| && Graph(nbrs)
      ensures p in Group(shape, root, g) ==> Stone(shape, p)
    {}

    lemma UncountedMore(group: set<nat>, gone: set<nat>, p: nat)
      requires Uncounted(group, gone)
      ensures Uncounted(group, gone + {p})
      ensures p in group && p !in gone ==> forall m: nat :: (m, p) !in counted
    {}

    /** What the test in Square.remove finds out. */
    lemma RemovingNeighbour(p: nat, i: nat, g: nat, shape: Colors, gone: set<nat>, extra: set<nat>)
      requires Removing(g, shape, gone, extra) && p < |nbrs| && i < |nbrs[p]|
      ensures var nb := nbrs[p][i];
        && nb < |color| && nb < |removestamp|
        && (color[nb] != EMPTY && removestamp[nb] != now <==> Stone(shape, nb) && nb !in gone)
    {
      assert Near(nbrs, p, nbrs[p][i]);
    }

    method VisitRemoved(p: nat, i: nat, g: nat, ghost shape: Colors, ghost gone0: set<nat>, ghost counted0: Pairs,
      ghost gone: set<nat>, ghost extra: set<nat>) returns (ghost gone': set<nat>)
      requires Removing(g, shape, gone, extra)
      requires p in Group(shape, root, g) && i < |nbrs[p]|
      requires gone0 + {p} <= gone && gone <= Group(shape, root, g) && Group(shape, root, g) !! extra
      requires Uncounted(Group(shape, root, g), gone) && forall m: nat :: (m, p) !in counted0
      requires Exploring(nbrs, Group(shape, root, g), gone0, gone, p, FirstOf(nbrs[p], i))
      requires Adding(nbrs, shape, Group(shape, root, g), counted0, counted, gone0, gone, p, FirstOf(nbrs[p], i))
      modifies this`color, this`reference, this`ledges, this`removestamp, this`counted, emptyset, zobrist`hash
      ensures Removing(g, shape, gone', extra)
      ensures Uncounted(Group(shape, root, g), gone')
      ensures Exploring(nbrs, Group(shape, root, g), gone0, gone', p, FirstOf(nbrs[p], i) + {nbrs[p][i]})
      ensures Adding(nbrs, shape, Group(shape, root, g), counted0, counted, gone0, gone', p, FirstOf(nbrs[p], i)
        + {nbrs[p][i]})
      ensures gone <= gone' <= Group(shape, root, g)
      decreases |Group(shape, root, g) - gone|, 2
    {
      hide Explored, Exploring, Added, Adding, Removing, FirstOf;
      RemovingSquare(p, g, shape, gone, extra);
      RemovingNeighbour(p, i, g, shape, gone, extra);
      ghost var group := Group(shape, root, g);
      ghost var visited := FirstOf(nbrs[p], i);
      var nb := nbrs[p][i];
      gone' := gone;
      if color[nb] != EMPTY && removestamp[nb] != now {
        var r := FindRemoving(nb, g, shape, gone, extra);
        if r == g {
          gone' := Deeper(p, nb, g, shape, gone0, counted0, gone, extra, visited);
        } else {
          NotYetVisited(nbrs, p, i);
          AddingNew(nbrs, shape, group, counted0, counted, gone0, gone, p, visited, nb);
          AddingOne(nbrs, shape, group, counted0, counted, gone0, gone, p, visited, nb);
          CountLedge(nb, p, r, g, shape, gone, extra);
          ExploringOne(nbrs, group, gone0, gone, p, visited, nb);
        }
      } else {
        ExploringOne(nbrs, group, gone0, gone, p, visited, nb);
        AddingSkip(nbrs, shape, group, counted0, counted, gone0, gone, p, visited, nb);
      }
    }

    method Deeper(ghost p: nat, nb: nat, g: nat, ghost shape: Colors, ghost gone0: set<nat>, ghost counted0: Pairs,
      ghost gone: set<nat>, ghost extra: set<nat>, ghost visited: set<nat>) returns (ghost gone': set<nat>)
      requires Removing(g, shape, gone, extra)
      requires nb in Group(shape, root, g) && nb !in gone
      requires gone0 + {p} <= gone && gone <= Group(shape, root, g) && Group(shape, root, g) !! extra
      requires Uncounted(Group(shape, root, g), gone)
      requires Exploring(nbrs, Group(shape, root, g), gone0, gone, p, visited)
      requires Adding(nbrs, shape, Group(shape, root, g), counted0, counted, gone0, gone, p, visited)
      modifies this`color, this`reference, this`ledges, this`removestamp, this`counted, emptyset, zobrist`hash
      ensures Removing(g, shape, gone', extra)
      ensures Uncounted(Group(shape, root, g), gone')
      ensures Exploring(nbrs, Group(shape, root, g), gone0, gone', p, visited + {nb})
      ensures Adding(nbrs, shape, Group(shape, root, g), counted0, counted, gone0, gone', p, visited + {nb})
      ensures gone <= gone' <= Group(shape, root, g)
      decreases |Group(shape, root, g) - gone|, 1
    {
      hide Exploring, Added, Adding, Removing, Uncounted;
      RemovingSquare(nb, g, shape, gone, extra);
      ghost var group := Group(shape, root, g);
      ghost var counted1 := counted;
      gone' := Remove(nb, g, shape, gone, extra);
      ExploringMore(nbrs, group, gone0, gone, gone', p, visited, nb);
      AddingMore(nbrs, shape, group, counted0, counted1, counted, gone0, gone, gone', p, visited, nb);
    }

    // -------------------------------------------------------------------
    // Placing a stone
    // -------------------------------------------------------------------

    /** The bookkeeping while the stone on `s` looks at its neighbours. */
    ghost predicate PlacingState(s: nat)
      reads this, emptyset, zobrist
    {
      && Sizes() && References(color) && Stamps() && Indexed({s}) && Hashed(color)
      && Stone(color, s) && root[s] == s
      && forall p: nat :: Stone(color, p) && p != s ==> born[p] < born[s]
    }

    /** The groups of the neighbours outside `pend` are one with the new stone's if they have its colour. */
    ghost predicate PlacingGroups(s: nat, pend: set<nat>)
      reads this`color, this`root
    {
      && |root| == |color| == |nbrs| && Graph(nbrs) && s < |nbrs|
      && Joined(nbrs, color, root, s, pend) && Whole(nbrs, color, root)
    }

    /** Counts, with the neighbours of `pend` still to be looked at; `g` may be without a ledge. */
    ghost predicate PlacingCounts(s: nat, pend: set<nat>, g: nat)
      reads this`color, this`root, this`counted, this`ledges
    {
      && |root| == |ledges| == |color| == |nbrs| && s < |nbrs|
      && pend <= Around(nbrs, s)
      && Counted(nbrs, color, counted, s, pend) && Counts(color, ledges, counted, root)
      && FoesCounted(nbrs, color, root, counted, s, pend, g)
    }

    ghost predicate PlacingTaken(s: nat, c: nat, before: Colors)
      reads this`color
    {
      && (c == WHITE || c == BLACK)
      && |before| == |nbrs| && IsEmpty(before, s) && Position(nbrs, before)
      && Taken(nbrs, before[s := c], color, s, c)
    }

    ghost predicate Placing(s: nat, c: nat, before: Colors, pend: set<nat>)
      reads this, emptyset, zobrist
    {
      PlacingState(s) && PlacingGroups(s, pend) && PlacingCounts(s, pend, |nbrs|) && PlacingTaken(s, c, before)
    }

    method EmptyNeighbour(s: nat, ghost c: nat, nb: nat, ghost before: Colors, ghost pend: set<nat>)
      requires Placing(s, c, before, pend) && Near(nbrs, s, nb) && nb in pend && IsEmpty(color, nb)
      modifies this`ledges, this`counted
      ensures Placing(s, c, before, pend - {nb})
    {
      hide Graph, Forest, HashOf, Of, Taken, Whole, Joined, Counted, Counts, FoesCounted;
      CountedEmpty(nbrs, color, counted, s, pend, nb);
      JoinedVisited(nbrs, color, root, s, pend, nb);
      CountsMore(color, ledges, counted, root, s, nb);
      FoesCountedMore(nbrs, color, root, counted, s, pend, |nbrs|, (s, nb), nb);
      ledges := ledges[s := ledges[s] + 1];
      counted := counted + {(s, nb)};
    }

    method FindPlacing(m: nat, ghost s: nat) returns (r: nat)
      requires PlacingState(s) && Stone(color, m)
      modifies this`reference
      ensures PlacingState(s)
      ensures r == root[m] && Stone(color, r) && root[r] == r && reference[r] == r
    {
      hide Graph, HashOf, Forest;
      r := Find(m, true, color);
      RootOf(color, reference, root, born, m);
    }

    /** The root of a friendly group is made to refer to the new stone. */
    method JoinGroup(s: nat, ghost c: nat, nb: nat, r: nat, ghost before: Colors, ghost pend: set<nat>)
      requires Placing(s, c, before, pend) && Near(nbrs, s, nb)
      requires Stone(color, nb) && color[nb] == color[s] && r == root[nb] && r != s && Stone(color, r) && root[r] == r
      modifies this`ledges, this`reference, this`root
      ensures PlacingState(s) && PlacingGroups(s, pend - {nb}) && PlacingCounts(s, pend, |nbrs|)
        && PlacingTaken(s, c, before)
      ensures root[nb] == s
    {
      hide Graph, Forest, HashOf, Of, Taken, Whole, Joined, Counted, Counts, FoesCounted, Merged;
      ForestMerged(color, reference, root, born, r, s);
      JoinedMerged(nbrs, color, root, s, pend, nb, r);
      WholeMerged(nbrs, color, root, s, nb, r);
      CountsMerged(color, ledges, counted, root, r, s);
      FoesCountedMerged(nbrs, color, root, counted, s, pend, |nbrs|, r, nb);
      MergedAt(root, r, s);
      ledges := ledges[s := ledges[s] + ledges[r]];
      reference := reference[r := s];
      root := Merged(root, r, s);
    }

    method FriendNeighbour(s: nat, ghost c: nat, nb: nat, ghost before: Colors, ghost pend: set<nat>)
      requires Placing(s, c, before, pend) && Near(nbrs, s, nb) && nb in pend
      requires Stone(color, nb) && color[nb] == color[s]
      modifies this`ledges, this`reference, this`root, this`counted
      ensures Placing(s, c, before, pend - {nb})
    {
      hide Graph, Forest, HashOf, Of, Taken, Whole, Joined, Counted, Counts, FoesCounted;
      var r := FindPlacing(nb, s);
      if reference[r] != s {
        JoinGroup(s, c, nb, r, before, pend);
      } else {
        JoinedVisited(nbrs, color, root, s, pend, nb);
      }
      LoseLedge(s, nb, s, pend);
    }

    /** The stone `nb`, whose root is `r`, no longer has `s` as a ledge. */
    method LoseLedge(s: nat, nb: nat, r: nat, ghost pend: set<nat>)
      requires PlacingState(s) && PlacingGroups(s, pend - {nb}) && PlacingCounts(s, pend, |nbrs|)
      requires Near(nbrs, s, nb) && nb in pend && Stone(color, nb) && root[nb] == r
      modifies this`ledges, this`counted
      ensures PlacingState(s) && PlacingGroups(s, pend - {nb})
      ensures PlacingCounts(s, pend - {nb}, if color[nb] == color[s] then |nbrs| else r)
    {
      hide Graph, Forest, HashOf, Of, Whole, Joined, Counted, Counts, FoesCounted;
      ghost var g := if color[nb] == color[s] then |nbrs| else r;
      RootIsSquare(nbrs, color, root, nb);
      CountedStone(nbrs, color, counted, s, pend, nb);
      CountsLess(color, ledges, counted, root, nb, s);
      FoesCountedExcept(nbrs, color, root, counted, s, pend, g);
      FoesCountedLess(nbrs, color, root, counted, s, pend, g, nb);
      ledges := ledges[r := ledges[r] - 1];
      counted := counted - {(nb, s)};
    }

    method FoeNeighbour(s: nat, ghost c: nat, nb: nat, ghost before: Colors, ghost pend: set<nat>)
      requires Placing(s, c, before, pend) && Near(nbrs, s, nb) && nb in pend
      requires Stone(color, nb) && color[nb] != color[s]
      modifies this`color, this`reference, this`ledges, this`removestamp, this`counted, emptyset, zobrist`hash
      ensures Placing(s, c, before, pend - {nb})
    {
      hide Graph, Forest, HashOf, Of, Taken, Whole, Joined, Counted, Counts, FoesCounted;
      var r := FindPlacing(nb, s);
      JoinedVisited(nbrs, color, root, s, pend, nb);
      LoseLedge(s, nb, r, pend);
      if ledges[r] == 0 {
        Capture(s, c, nb, r, before, pend - {nb});
      } else {
        CountNotZero(color, ledges, counted, root, r);
        FoesCountedAll(nbrs, color, root, counted, s, pend - {nb}, |nbrs|, r);
      }
    }

    method Capture(s: nat, ghost c: nat, nb: nat, r: nat, ghost before: Colors, ghost pend: set<nat>)
      requires PlacingState(s) && PlacingGroups(s, pend) && PlacingCounts(s, pend, r) && PlacingTaken(s, c, before)
      requires Near(nbrs, s, nb) && Stone(color, nb) && color[nb] != color[s]
      requires r == root[nb] && Stone(color, r) && root[r] == r && ledges[r] == 0
      modifies this`color, this`reference, this`ledges, this`removestamp, this`counted, emptyset, zobrist`hash
      ensures Placing(s, c, before, pend)
    {
      hide Graph, Forest, HashOf, Of, Taken, Whole, Joined, Counted, Counts, FoesCounted, Breathes, Explored,
        Added, Minus;
      ghost var shape, counted0 := color, counted;
      ghost var group := Group(shape, root, r);
      CaptureKeepsGroups(nbrs, shape, root, s, pend, nb);
      CountIsZero(nbrs, shape, ledges, counted, root, s, pend, r);
      RemovingStart(nb, r, s, pend);
      ghost var gone := Remove(nb, r, shape, {}, {s});
      CaptureTakesAll(nbrs, shape, root, s, pend, nb, gone);
      CaptureKeepsState(r, shape, s);
      CaptureKeepsCounts(nbrs, shape, ledges, counted0, counted, root, s, pend, r);
      NoLedge(nbrs, shape, root, s, pend, nb);
      CaptureIsTaken(nbrs, before, shape, root, s, c, pend, nb);
    }

    lemma RemovingStart(nb: nat, r: nat, s: nat, pend: set<nat>)
      requires PlacingState(s) && Counts(color, ledges, counted, root) && Counted(nbrs, color, counted, s, pend)
      requires Stone(color, r) && root[r] == r && root[s] != r
      ensures |root| == |color| && Removing(r, color, {}, {s})
      ensures Group(color, root, r) !! {s} && Uncounted(Group(color, root, r), {})
    {
      hide Graph, Forest, HashOf, Of;
      assert Minus(color, {}) == color;
    }

    lemma CaptureKeepsState(r: nat, shape: Colors, s: nat)
      requires Sizes() && |shape| == |root| && Removing(r, shape, Group(shape, root, r), {s})
      requires Stone(shape, s) && root[s] == s && s != r
      requires forall p: nat :: Stone(shape, p) && p != s ==> born[p] < born[s]
      ensures PlacingState(s)
    {
      hide Graph, HashOf, Of;
      ForestWithout(shape, reference, root, born, r);
      hide Forest;
      assert forall p: nat :: Stone(color, p) ==> Stone(shape, p);
    }

    method StartPlacing(s: nat, c: nat)
      requires Valid() && IsEmpty(color, s) && (c == WHITE || c == BLACK)
      modifies this`now, this`color, this`reference, this`ledges, this`used, this`root, this`born, zobrist`hash
      ensures Placing(s, c, old(color), Around(nbrs, s))
      ensures used == old(used)[s := true] && now == old(now) + 1
    {
      hide Graph, HashOf, Of, Joined, Whole, Counted, Counts, Full, FoesCounted, Taken, Around, Forest;
      StartIsPlacing(s, c);
      zobrist.Update(s, color[s], c, color);
      AssignStone(s, c);
    }

    /** What the new stone changes about the square itself. */
    method ColorStone(s: nat, c: nat)
      requires |nbrs| == |color| == |used| && IsEmpty(color, s) && Hashed(color[s := c])
      requires Indexed({}) && Timely() && (c == WHITE || c == BLACK)
      modifies this`now, this`color, this`used
      ensures color == old(color)[s := c] && used == old(used)[s := true] && now == old(now) + 1
      ensures Stamps() && Indexed({s}) && Hashed(color)
    {
      hide Hashed;
      now := now + 1;
      color := color[s := c];
      used := used[s := true];
    }

    /** The assignments at the start of Square.move. */
    method AssignStone(s: nat, c: nat)
      requires Sizes() && References(color) && Indexed({}) && |color| > s && Hashed(color[s := c])
      requires IsEmpty(color, s) && (c == WHITE || c == BLACK)
      requires Timely()
      requires Forest(color[s := c], reference[s := s], root[s := s], born[s := now + 1])
      modifies this`now, this`color, this`reference, this`ledges, this`used, this`root, this`born
      ensures PlacingState(s)
      ensures color == old(color)[s := c] && ledges == old(ledges)[s := 0] && root == old(root)[s := s]
      ensures used == old(used)[s := true] && now == old(now) + 1
    {
      hide Graph, HashOf, Forest, Position, Hashed, Indexed, Timely;
      PositionWith(nbrs, color, s, c);
      ColorStone(s, c);
      reference := reference[s := s];
      ledges := ledges[s := 0];
      root := root[s := s];
      born := born[s := now];
    }

    lemma StartIsPlacing(s: nat, c: nat)
      requires Valid() && IsEmpty(color, s) && (c == WHITE || c == BLACK)
      ensures s < |nbrs| == |color|
      ensures Forest(color[s := c], reference[s := s], root[s := s], born[s := now + 1])
      ensures Joined(nbrs, color[s := c], root[s := s], s, Around(nbrs, s)) && Whole(nbrs, color[s := c], root[s := s])
      ensures Counted(nbrs, color[s := c], counted, s, Around(nbrs, s))
        && Counts(color[s := c], ledges[s := 0], counted, root[s := s])
      ensures FoesCounted(nbrs, color[s := c], root[s := s], counted, s, Around(nbrs, s), |nbrs|)
      ensures Taken(nbrs, color[s := c], color[s := c], s, c)
    {
      hide HashOf;
      ForestWithStone(color, reference, root, born, s, c, now + 1);
      JoinedWithStone(nbrs, color, root, 0, s, c);
      WholeWithStone(nbrs, color, root, s, c);
      CountedWithStone(nbrs, color, counted, s, c);
      CountsWithStone(nbrs, color, ledges, counted, root, s, c);
      TakenStart(nbrs, color[s := c], s, c);
    }

    /** Square.move. The index of empty points still has `s` afterwards. */
    method Place(s: nat, c: nat)
      requires Valid() && IsEmpty(color, s) && (c == WHITE || c == BLACK)
      modifies this`now, this`color, this`reference, this`ledges, this`used, this`removestamp
      modifies this`root, this`born, this`counted, this`seen, emptyset, zobrist
      ensures s < |old(color)| && color == Played(nbrs, old(color), s, c)
      ensures Stone(color, s) && Grouped() && Indexed({s}) && Remembered() && seen == old(seen) + {color}
      ensures Timely()
    {
      hide Valid, Grouped, Remembered, Recorded, PlacingState, PlacingGroups, PlacingCounts, PlacingTaken,
        Placing, Played;
      hide Indexed, Hashed;
      PlaceFacts(s);
      ghost var before := color;
      ghost var unused := used;
      StartPlacing(s, c);
      LookAround(s, c, before);
      PlacedFacts(s);
      Remember(s, c, before, unused);
    }

    lemma PlaceFacts(s: nat)
      requires Valid() && IsEmpty(color, s)
      ensures s < |nbrs| == |color| == |used| && Timely() && color in seen
      ensures zobrist.strings == zobristStrings && Recorded(zobristStrings, seen, used, zobrist.hashSet)
    {
      hide HashOf, Forest, Joined, Whole, Full, Counts, Graph, Recorded;
    }

    lemma PlacedFacts(s: nat)
      requires PlacingState(s)
      ensures Stone(color, s) && |color| == |nbrs| && Indexed({s}) && Hashed(color) && Stamps()
    {
      hide HashOf, Forest, Graph;
    }

    /** The position enters the history. */
    method Remember(ghost s: nat, ghost c: nat, ghost before: Colors, ghost unused: seq<bool>)
      requires Hashed(color) && PlacingTaken(s, c, before)
      requires before in seen && |unused| == |color| && s < |unused| && used == unused[s := true]
      requires Recorded(zobristStrings, seen, unused, zobrist.hashSet)
      modifies this`seen, zobrist`hashSet
      ensures Remembered() && seen == old(seen) + {color}
    {
      hide HashOf, Taken;
      assert Fits(zobristStrings, before) by {
        RecordedFits(zobristStrings, seen, unused, zobrist.hashSet, before);
      }
      TakenFits(nbrs, before, color, zobristStrings, s, c);
      RecordedMore(zobristStrings, seen, unused, zobrist.hashSet, before, color, s);
      hide Recorded;
      zobrist.Add();
      seen := seen + {color};
    }

    /** The loop of Square.move over the neighbours of the new stone. */
    method LookAround(s: nat, c: nat, ghost before: Colors)
      requires s < |nbrs| && Placing(s, c, before, Around(nbrs, s))
      modifies this`color, this`reference, this`ledges, this`removestamp, this`root, this`counted, emptyset,
        zobrist`hash
      ensures PlacingState(s) && PlacingTaken(s, c, before)
      ensures color == Played(nbrs, before, s, c) && Grouped()
    {
      hide Graph, HashOf, Joined, Whole, Counted, Counts, Full, Forest, Taken, Position;
      hide Grouped, PlacingState, PlacingGroups, PlacingCounts, PlacingTaken;
      ghost var pend := Around(nbrs, s);
      PlacingNeighbour(s, c, before, pend, s);
      FirstOfNone(nbrs[s]);
      for i := 0 to |nbrs[s]|
        invariant Placing(s, c, before, pend)
        invariant pend == Around(nbrs, s) - FirstOf(nbrs[s], i)
      {
        NotYetVisited(nbrs, s, i);
        FirstOfNext(nbrs[s], i);
        var nb := nbrs[s][i];
        PlacingNeighbour(s, c, before, pend, nb);
        if color[nb] == EMPTY {
          EmptyNeighbour(s, c, nb, before, pend);
        } else if color[nb] == c {
          FriendNeighbour(s, c, nb, before, pend);
        } else {
          FoeNeighbour(s, c, nb, before, pend);
        }
        pend := pend - {nb};
      }
      FirstOfAll(nbrs[s]);
      assert pend == {};
      PlacingDone(s, c, before);
    }

    lemma PlacingNeighbour(s: nat, c: nat, before: Colors, pend: set<nat>, nb: nat)
      requires Placing(s, c, before, pend)
      ensures Graph(nbrs) && |color| == |nbrs| && HasColor(color, s, c)
      ensures s < |nbrs| && nb in nbrs[s] ==> Near(nbrs, s, nb) && nb < |nbrs|
    {
      hide Forest, Joined, Whole, Counted, Counts, FoesCounted, Breathes;
      TakenOnlyOpponents(nbrs, before[s := c], color, s, c, s);
      assert s < |nbrs| && nb in nbrs[s] ==> Near(nbrs, s, nb);
    }

    lemma PlacingDone(s: nat, c: nat, before: Colors)
      requires Placing(s, c, before, {})
      ensures color == Played(nbrs, before, s, c) && Grouped()
    {
      hide Forest, HashOf, Counts;
      CountedAll(nbrs, color, counted, s);
      TakenOnlyOpponents(nbrs, before[s := c], color, s, c, s);
      forall q: nat | Near(nbrs, s, q) && Stone(color, q) && color[q] == Opponent(c) ensures Breathes(nbrs, color, q) {
        TakenOnlyOpponents(nbrs, before[s := c], color, s, c, q);
        RootIsSquare(nbrs, color, root, q);
        assert Of(counted, root, root[q]) != {};
        CountedBreathes(nbrs, color, counted, root, q);
      }
      TakenAll(nbrs, before, color, s, c);
    }

    /** The square of the finished move leaves the index of empty points. */
    method TakeFromIndex(s: nat)
      requires Indexed({s}) && Stone(color, s)
      modifies emptyset
      ensures Indexed({})
    {
      emptyset.Remove(s);
    }

    /** A pass, or a stone on an empty square; nothing else asks for more than that the square is empty. */
    method Move(pos: int)
      requires Valid() && (pos == PASS || (0 <= pos && IsEmpty(color, pos)))
      modifies this`now, this`color, this`reference, this`ledges, this`used, this`removestamp
      modifies this`root, this`born, this`counted, this`seen, emptyset, zobrist
      modifies this`toMove, this`lastMove, this`finished, this`history
      ensures Valid()
      ensures pos == PASS ==> color == old(color) && seen == old(seen)
      ensures pos != PASS ==>
        pos < |old(color)| && color == Played(nbrs, old(color), pos, old(toMove)) && seen == old(seen) + {color}
      ensures toMove == Opponent(old(toMove)) && lastMove == pos && history == old(history) + [pos]
      ensures finished == (old(finished) || (pos == PASS && old(lastMove) == PASS))
    {
      hide Graph, HashOf, Grouped, Remembered, Played, Timely, Indexed;
      if pos != PASS {
        Place(pos, toMove);
        TakeFromIndex(pos);
      } else if lastMove == PASS {
        finished := true;
      }
      if toMove == BLACK {
        toMove := WHITE;
      } else {
        toMove := BLACK;
      }
      lastMove := pos;
      history := history + [pos];
    }

    /** Every square empty again, in new helper objects. */
    method Reset()
      requires Valid()
      modifies this`color, this`used, this`counted, this`seen, this`emptyset, this`zobrist
      modifies this`toMove, this`finished, this`lastMove, this`history
      ensures Valid() && fresh(emptyset) && fresh(zobrist)
      ensures color == AllEmpty(|nbrs|) && seen == {color}
      ensures toMove == BLACK && lastMove == -2 && !finished && history == []
    {
      hide Valid, Grouped, Remembered, Indexed, AllEmpty, Fits, Timely, Sizes;
      StringsFit();
      ClearSquares();
      NewParts();
      StartGame();
    }

    method StartGame()
      requires Grouped() && Indexed({}) && Remembered() && Timely()
      modifies this`toMove, this`finished, this`lastMove, this`history
      ensures Valid()
      ensures toMove == BLACK && lastMove == -2 && !finished && history == []
    {
      hide Grouped, Remembered, Indexed, Timely;
      toMove, finished, lastMove, history := BLACK, false, -2, [];
    }

    lemma StringsFit()
      requires Valid()
      ensures Sizes() && Fits(zobristStrings, AllEmpty(|nbrs|))
      ensures Timely()
    {
      hide Graph, HashOf;
    }

    method ClearSquares()
      requires Sizes()
      modifies this`color, this`used, this`counted
      ensures Grouped() && color == AllEmpty(|nbrs|) && |used| == |color|
    {
      hide Graph, AllEmpty, Forest, Joined, Whole, Full, Counts;
      color := AllEmpty(|nbrs|);
      used := seq(|nbrs|, _ => false);
      counted := {};
      NoStones(nbrs, reference, root, born, ledges);
    }

    method NewParts()
      requires color == AllEmpty(|nbrs|) && Fits(zobristStrings, color) && |used| == |color|
      modifies this`emptyset, this`zobrist, this`seen
      ensures fresh(emptyset) && fresh(zobrist) && Indexed({})
      ensures Remembered() && seen == {color}
    {
      hide HashOf, Recorded;
      RecordedStart(zobristStrings, used, color);
      emptyset := new EmptySet(|nbrs|);
      zobrist := new ZobristHash(zobristStrings, color);
      seen := {color};
    }

    // -------------------------------------------------------------------
    // Trying a move
    // -------------------------------------------------------------------

    /** The hash is that of `shown` without `gone`, a part of the group of `g`; the board is unchanged. */
    ghost predicate Trying(g: nat, shown: Colors, gone: set<nat>)
      reads this, zobrist
    {
      && Sizes() && References(color) && Timely()
      && |shown| == |color| && Fits(zobristStrings, shown) && Hashed(Minus(shown, gone))
      && gone <= Group(color, root, g)
      && forall q :: q in Group(color, root, g) ==> shown[q] == color[q] && (removestamp[q] == now <==> q in gone)
    }

    ghost predicate SameStamps(stamps: seq<nat>, group: set<nat>)
      reads this`removestamp
    {
      && |stamps| == |removestamp|
      && forall q: nat :: q < |stamps| && q !in group ==> removestamp[q] == stamps[q]
    }

    method TryClear(p: nat, ghost g: nat, ghost shown: Colors, ghost gone: set<nat>)
      requires Trying(g, shown, gone) && p in Group(color, root, g) && p !in gone
      modifies this`removestamp, zobrist`hash
      ensures Trying(g, shown, gone + {p})
      ensures SameStamps(old(removestamp), Group(color, root, g))
    {
      hide Graph, Forest, HashOf;
      zobrist.Update(p, color[p], EMPTY, Minus(shown, gone));
      removestamp := removestamp[p := now];
      assert Minus(shown, gone)[p := EMPTY] == Minus(shown, gone + {p});
    }

    /** Square.remove without update: marks the squares and changes only the hash. */
    method TryRemove(p: nat, g: nat, ghost shown: Colors, ghost gone0: set<nat>) returns (ghost gone: set<nat>)
      requires |root| == |color| && Trying(g, shown, gone0) && p in Group(color, root, g) && p !in gone0
      modifies this`removestamp, this`reference, zobrist`hash
      ensures reference == old(reference) && SameStamps(old(removestamp), Group(color, root, g))
      ensures Trying(g, shown, gone) && p in gone
      ensures Explored(nbrs, Group(color, root, g), gone0, gone)
      decreases |Group(color, root, g) - gone0|, 0
    {
      hide Graph, Forest, HashOf, Trying, Explored, Exploring, FirstOf, Group;
      ghost var group := Group(color, root, g);
      TryClear(p, g, shown, gone0);
      gone := gone0 + {p};
      assert group - gone0 == (group - gone) + {p};
      TryingSizes(g, shown, gone, p);
      StartTry(nbrs, group, gone0, p);
      FirstOfNone(nbrs[p]);
      for i := 0 to |nbrs[p]|
        invariant reference == old(reference) && SameStamps(old(removestamp), group)
        invariant Trying(g, shown, gone)
        invariant gone0 + {p} <= gone <= group
        invariant Exploring(nbrs, group, gone0, gone, p, FirstOf(nbrs[p], i))
      {
        assert group - gone <= group - (gone0 + {p});
        CardMonotone(group - gone, group - (gone0 + {p}));
        gone := TryVisit(p, i, g, shown, gone0, gone);
        FirstOfNext(nbrs[p], i);
      }
      FirstOfAll(nbrs[p]);
      ExploringDone(nbrs, group, gone0, gone, p, FirstOf(nbrs[p], |nbrs[p]|));
    }

    lemma TryingSizes(g: nat, shown: Colors, gone: set<nat>, p: nat)
      requires Trying(g, shown, gone)
      ensures |root| == |color| == |nbrs| && gone <= Group(color, root, g)
      ensures p in Group(color, root, g) ==> p < |nbrs| && Stone(color, p)
    {}

    lemma TryingNeighbour(p: nat, i: nat, g: nat, shown: Colors, gone: set<nat>)
      requires Trying(g, shown, gone) && p < |nbrs| && i < |nbrs[p]|
      ensures |root| == |color| == |nbrs|
      ensures var nb := nbrs[p][i];
        && nb < |color| && nb < |removestamp| && References(color)
        && (nb in Group(color, root, g) ==> (nb in gone <==> removestamp[nb] == now))
    {
      assert Near(nbrs, p, nbrs[p][i]);
    }

    method TryVisit(p: nat, i: nat, g: nat, ghost shown: Colors, ghost gone0: set<nat>, ghost gone: set<nat>)
      returns (ghost gone': set<nat>)
      requires |root| == |color| && Trying(g, shown, gone) && p < |nbrs| && i < |nbrs[p]|
      requires gone0 + {p} <= gone <= Group(color, root, g)
      requires Exploring(nbrs, Group(color, root, g), gone0, gone, p, FirstOf(nbrs[p], i))
      modifies this`removestamp, this`reference, zobrist`hash
      ensures reference == old(reference) && SameStamps(old(removestamp), Group(color, root, g))
      ensures Trying(g, shown, gone') && gone <= gone' <= Group(color, root, g)
      ensures Exploring(nbrs, Group(color, root, g), gone0, gone', p, FirstOf(nbrs[p], i) + {nbrs[p][i]})
      decreases |Group(color, root, g) - gone|, 1
    {
      hide Graph, Forest, HashOf, Trying, Explored, Exploring, FirstOf;
      ghost var group := Group(color, root, g);
      ghost var visited := FirstOf(nbrs[p], i);
      TryingNeighbour(p, i, g, shown, gone);
      var nb := nbrs[p][i];
      gone' := gone;
      if color[nb] != EMPTY && removestamp[nb] != now {
        var r := FindTrying(nb, g, shown, gone);
        if r == g {
          gone' := TryRemove(nb, g, shown, gone);
          ExploredWithin(nbrs, group, gone, gone');
          ExploringMore(nbrs, group, gone0, gone, gone', p, visited, nb);
        } else {
          ExploringOne(nbrs, group, gone0, gone, p, visited, nb);
        }
      } else {
        ExploringOne(nbrs, group, gone0, gone, p, visited, nb);
      }
    }

    method FindTrying(m: nat, ghost g: nat, ghost shown: Colors, ghost gone: set<nat>) returns (r: nat)
      requires Trying(g, shown, gone) && Stone(color, m)
      modifies this`reference
      ensures reference == old(reference) && Trying(g, shown, gone)
      ensures r == root[m]
    {
      hide Graph, Forest, HashOf;
      r := Find(m, false, color);
    }

    /** The tally after `left` pairs are left to count. */
    ghost predicate Tallying(t: Tally, left: Pairs)
      reads this
    {
      Grouped() && Timely() && Tallied(color, root, timestamp, tempLedges, now, toMove, t, left)
    }

    /** The hash is that of `shown`: the move on `s` with the weak groups of the opponent taken off. */
    ghost predicate Shows(s: nat, t: Tally, shown: Colors)
      reads this`color, this`root, this`removestamp, this`now, this`toMove, this`zobrist, zobrist
    {
      && (toMove == WHITE || toMove == BLACK)
      && |shown| == |color| == |root| == |removestamp| && IsEmpty(color, s)
      && Hashed(shown) && Taken(nbrs, color[s := toMove], shown, s, toMove)
      && ShownAs(color, root, removestamp, now, t.weakFoes, shown)
    }

    /** A group that is met for the first time gets a copy of its count. */
    method Stamp(r: nat, ghost t: Tally, ghost left: Pairs) returns (isNew: bool, ghost t1: Tally)
      requires Tallying(t, left) && Stone(color, r) && root[r] == r
      requires r !in t.All() ==> ledges[r] == |Of(left, root, r)| && ledges[r] != 0
      modifies this`timestamp, this`tempLedges
      ensures isNew == (r !in t.All()) && t1 == (if isNew then t.AddStrong(r, color[r] == toMove) else t)
      ensures Tallying(t1, left)
    {
      hide Grouped, Tallied, Of, Tally.All, Tally.AddStrong;
      TallyingSizes(t, left);
      isNew, t1 := timestamp[r] != now, t;
      TallyStamp(color, root, timestamp, tempLedges, now, toMove, t, left, r);
      if isNew {
        TallyAdds(color, root, timestamp, tempLedges, now, toMove, t, left, r, ledges[r]);
        timestamp := timestamp[r := now];
        tempLedges := tempLedges[r := ledges[r]];
        t1 := t.AddStrong(r, color[r] == toMove);
      }
    }

    lemma TallyingSizes(t: Tally, left: Pairs)
      requires Tallying(t, left)
      ensures |color| == |root| == |timestamp| == |tempLedges| == |ledges| == |nbrs|
    {}

    /** The temporary count of the group of `nb` loses `s`. */
    method Lower(s: nat, nb: nat, r: nat, ghost t1: Tally, ghost left: Pairs) returns (ghost t2: Tally)
      requires Tallying(t1, left) && Stone(color, nb) && root[nb] == r && (nb, s) in left && r in t1.All()
      modifies this`tempLedges
      ensures r < |tempLedges| && r < |color| && r !in t1.Weak()
      ensures t2 == if tempLedges[r] == 0 then t1.Weaken(r, color[r] == toMove) else t1
      ensures r in if color[r] == toMove then t1.strongFriends else t1.strongFoes
      ensures tempLedges[r] == |Of(left - {(nb, s)}, root, r)|
      ensures Tallying(t2, left - {(nb, s)})
    {
      hide Grouped, Tallied, Of, Tally.All, Tally.Weaken, Tally.Weak;
      TallyingSizes(t1, left);
      TallyAt(color, root, timestamp, tempLedges, now, toMove, t1, left, r);
      TallyLess(color, root, timestamp, tempLedges, now, toMove, t1, left, nb, s);
      tempLedges := tempLedges[r := tempLedges[r] - 1];
      t2 := if tempLedges[r] == 0 then t1.Weaken(r, color[r] == toMove) else t1;
    }

    lemma MeetFacts(s: nat, nb: nat, t: Tally, left: Pairs, visited: set<nat>)
      requires Grouped() && Left(counted, left, s, visited)
      requires IsEmpty(color, s) && Near(nbrs, s, nb) && nb !in visited && Stone(color, nb)
      ensures |color| == |root| == |reference| == |ledges| == |nbrs|
      ensures var r := root[nb]; Stone(color, r) && root[r] == r && color[r] == color[nb]
      ensures (nb, s) in left
      ensures Left(counted, left - {(nb, s)}, s, visited + {nb})
    {
      RootOf(color, reference, root, born, nb);
      RootIsSquare(nbrs, color, root, nb);
      hide Forest, Joined, Whole, Counts;
      NearSym(nbrs, s, nb);
      assert (nb, s) in left;
    }

    lemma NewGroup(s: nat, nb: nat, t: Tally, left: Pairs, visited: set<nat>)
      requires Grouped() && Left(counted, left, s, visited) && Met(color, root, t, visited)
      requires Stone(color, nb) && (nb, s) in left && root[nb] !in t.All()
      requires Stone(color, root[nb]) && root[root[nb]] == root[nb]
      ensures ledges[root[nb]] == |Of(left, root, root[nb])| && ledges[root[nb]] != 0
    {
      hide Forest, Joined, Whole, Graph;
      LeftAtFirst(color, root, counted, left, s, visited, t, root[nb]);
      assert (nb, s) in Of(left, root, root[nb]);
    }

    method Meet(s: nat, nb: nat, r: nat, ghost t: Tally, ghost left: Pairs, ghost visited: set<nat>)
      returns (isNew: bool, ghost t1: Tally, ghost t2: Tally)
      requires Tallying(t, left) && Met(color, root, t, visited) && Left(counted, left, s, visited)
      requires IsEmpty(color, s) && Near(nbrs, s, nb) && nb !in visited && Stone(color, nb) && root[nb] == r
      modifies this`timestamp, this`tempLedges
      ensures isNew == (r !in t.All()) && t1 == (if isNew then t.AddStrong(r, color[nb] == toMove) else t)
      ensures r < |tempLedges| && r in t1.All() && r !in t1.Weak()
      ensures t2 == if tempLedges[r] == 0 then t1.Weaken(r, color[nb] == toMove) else t1
      ensures r in if color[nb] == toMove then t1.strongFriends else t1.strongFoes
      ensures tempLedges[r] == |Of(left - {(nb, s)}, root, r)|
      ensures Tallying(t2, left - {(nb, s)})
      ensures Met(color, root, t1, visited + {nb}) && Left(counted, left - {(nb, s)}, s, visited + {nb})
    {
      hide Grouped, Of, Met, Tallied, Timely, Left, Tally.All, Tally.AddStrong, Tally.Weaken, Tally.Weak;
      MeetFacts(s, nb, t, left, visited);
      if r !in t.All() {
        NewGroup(s, nb, t, left, visited);
      }
      t.StrongAll(r, color[nb] == toMove);
      isNew, t1 := Stamp(r, t, left);
      MetMore(color, root, t, t1, visited, nb);
      t2 := Lower(s, nb, r, t1, left);
    }

    /** The hash forgets a group of the opponent that the move would capture. */
    method TryTake(s: nat, nb: nat, r: nat, ghost t1: Tally, ghost t2: Tally, ghost left: Pairs, ghost shown: Colors,
        ghost visited: set<nat>)
      returns (ghost shown': Colors)
      requires Grouped() && Timely() && Shows(s, t1, shown) && Left(counted, left, s, visited)
      requires Near(nbrs, s, nb) && Stone(color, nb) && color[nb] != toMove && root[nb] == r && Stone(color, r)
        && root[r] == r
      requires r !in t1.weakFoes && t2.weakFoes == t1.weakFoes + {r} && Of(left, root, r) == {}
      modifies this`removestamp, this`reference, zobrist`hash
      ensures reference == old(reference) && Timely()
      ensures Shows(s, t2, shown')
    {
      hide Graph, Forest, HashOf, Joined, Whole, Full, Counts, Taken, Left, Of, Explored, Shows, Grouped,
        Trying, Timely;
      hide Minus, Group, ShownAs, Position;
      TryingStart(s, t1, shown, r);
      TryingTaken(s, t1, shown, nb, left, visited);
      ghost var stamps := removestamp;
      ghost var gone := TryRemove(r, r, shown, {});
      TryTakesAll(nbrs, color, root, r, gone);
      shown' := Minus(shown, gone);
      ShownLess(color, root, stamps, removestamp, now, t1.weakFoes, shown, r);
      TryingDone(s, r, t2, shown, gone);
    }

    lemma TryingTaken(s: nat, t1: Tally, shown: Colors, nb: nat, left: Pairs, visited: set<nat>)
      requires Grouped() && Shows(s, t1, shown) && Left(counted, left, s, visited)
      requires Near(nbrs, s, nb) && Stone(color, nb) && color[nb] != toMove
      requires root[nb] !in t1.weakFoes && Of(left, root, root[nb]) == {}
      ensures Taken(nbrs, color[s := toMove], Minus(shown, Group(color, root, root[nb])), s, toMove)
    {
      hide Graph, Forest, HashOf, Joined, Whole, Full, Counts, Taken, Left, Of;
      TryIsTaken(nbrs, color, root, counted, left, s, toMove, shown, nb, visited);
    }

    lemma TryingDone(s: nat, r: nat, t2: Tally, shown: Colors, gone: set<nat>)
      requires |root| == |color| && IsEmpty(color, s) && (toMove == WHITE || toMove == BLACK)
      requires Trying(r, shown, gone)
      requires Taken(nbrs, color[s := toMove], Minus(shown, gone), s, toMove)
      requires ShownAs(color, root, removestamp, now, t2.weakFoes, Minus(shown, gone))
      ensures Shows(s, t2, Minus(shown, gone)) && Timely()
    {
      hide Graph, Forest, HashOf, Taken;
    }

    lemma TryingStart(s: nat, t: Tally, shown: Colors, r: nat)
      requires Grouped() && Timely() && Shows(s, t, shown) && Stone(color, r) && root[r] == r && r !in t.weakFoes
      ensures |root| == |color| == |removestamp| && |shown| == |color| && IsEmpty(color, s)
        && (toMove == WHITE || toMove == BLACK)
      ensures Trying(r, shown, {}) && r in Group(color, root, r)
      ensures Graph(nbrs) && Whole(nbrs, color, root) && Joined(nbrs, color, root, 0, {})
      ensures ShownAs(color, root, removestamp, now, t.weakFoes, shown)
    {
      hide Graph, Forest, HashOf, Joined, Whole, Full, Counts, Taken;
      assert Minus(shown, {}) == shown;
    }

    /** One neighbour with a stone; only stamps, temporary counts and the hash change. */
    method TryNeighbour(s: nat, nb: nat, k: Score, ghost t: Tally, ghost left: Pairs, ghost shown: Colors,
        ghost visited: set<nat>)
      returns (k': Score, ghost t': Tally, ghost left': Pairs, ghost shown': Colors)
      requires Tallying(t, left) && Met(color, root, t, visited) && Left(counted, left, s, visited)
      requires Shows(s, t, shown) && Scored(k, t)
      requires Near(nbrs, s, nb) && nb !in visited && Stone(color, nb)
      modifies this`timestamp, this`tempLedges, this`removestamp, this`reference, zobrist`hash
      ensures reference == old(reference)
      ensures Tallying(t', left') && Met(color, root, t', visited + {nb}) && Left(counted, left', s, visited + {nb})
      ensures Shows(s, t', shown') && Scored(k', t') && k'.empties == k.empties
    {
      hide Graph, Forest, HashOf, Met, Left, Tallied, Grouped, Timely, Taken, Scored, Shows, Of, Tallying;
      hide Tally.All, Tally.AddStrong, Tally.Weaken, Tally.Weak;
      TryNeighbourFacts(s, nb, t, left, shown, visited);
      var r := FindTallying(nb, t, left);
      var isNew;
      ghost var t1;
      isNew, t1, t' := Meet(s, nb, r, t, left, visited);
      var friend := color[nb] == toMove;
      left', shown' := left - {(nb, s)}, shown;
      t.StrongFacts(r, friend);
      ShowsSame(s, t, t1, shown);
      k' := k;
      if isNew {
        ScoreAdded(k, t, r, friend);
        k' := if friend then k.(neighs := k.neighs + 1) else k.(opps := k.opps + 1);
      }
      if tempLedges[r] == 0 {
        ScoreWeakened(k', t1, r, friend);
        k' := if friend then k'.(weakNeighs := k'.weakNeighs + 1) else k'.(weakOpps := k'.weakOpps + 1);
        t1.WeakenFacts(r, friend);
        MetSame(color, root, t1, t', visited + {nb});
        if friend {
          ShowsSame(s, t1, t', shown);
        } else {
          NoneLeft(left', root, r);
          shown' := TakeTallied(s, nb, r, t1, t', left', shown, visited + {nb});
        }
      }
    }

    method FindTallying(m: nat, ghost t: Tally, ghost left: Pairs) returns (r: nat)
      requires Tallying(t, left) && Stone(color, m)
      modifies this`reference
      ensures reference == old(reference) && Tallying(t, left)
      ensures r == root[m]
    {
      hide Graph, Forest, Joined, Whole, Full, Counts, Tallied, Timely;
      r := Find(m, false, color);
    }

    method TakeTallied(s: nat, nb: nat, r: nat, ghost t1: Tally, ghost t2: Tally, ghost left: Pairs,
        ghost shown: Colors, ghost visited: set<nat>)
      returns (ghost shown': Colors)
      requires Tallying(t2, left) && Shows(s, t1, shown) && Left(counted, left, s, visited)
      requires Near(nbrs, s, nb) && Stone(color, nb) && color[nb] != toMove && root[nb] == r && Stone(color, r)
        && root[r] == r
      requires r !in t1.weakFoes && t2.weakFoes == t1.weakFoes + {r} && Of(left, root, r) == {}
      modifies this`removestamp, this`reference, zobrist`hash
      ensures reference == old(reference) && Tallying(t2, left)
      ensures Shows(s, t2, shown')
    {
      hide Grouped, Timely, Tallied, Shows, Left, Of;
      shown' := TryTake(s, nb, r, t1, t2, left, shown, visited);
    }

    lemma TryNeighbourFacts(s: nat, nb: nat, t: Tally, left: Pairs, shown: Colors, visited: set<nat>)
      requires Tallying(t, left) && Left(counted, left, s, visited) && Shows(s, t, shown)
      requires Near(nbrs, s, nb) && nb !in visited && Stone(color, nb)
      ensures IsEmpty(color, s) && |color| == |root| && (toMove == WHITE || toMove == BLACK)
      ensures var r := root[nb]; Stone(color, r) && root[r] == r && color[r] == color[nb]
    {
      hide Tallied, Left, Timely, Taken;
      MeetFacts(s, nb, t, left, visited);
    }

    lemma ShowsSame(s: nat, t: Tally, t': Tally, shown: Colors)
      requires Shows(s, t, shown) && t.weakFoes == t'.weakFoes
      ensures Shows(s, t', shown)
    {
      hide Hashed, Taken;
    }

    method UsefulFast(s: nat) returns (r: bool)
      requires Sizes() && s < |color|
      ensures r == (!used[s] && NextToEmpty(nbrs, color, s))
    {
      hide HashOf;
      r := false;
      if !used[s] {
        for i := 0 to |nbrs[s]|
          invariant forall j :: 0 <= j < i ==> !IsEmpty(color, nbrs[s][j])
        {
          assert Near(nbrs, s, nbrs[s][i]);
          if color[nbrs[s][i]] == EMPTY {
            return true;
          }
        }
      }
    }

    /** The loop of Board.useful. */
    method TryAll(s: nat) returns (k: Score, ghost t: Tally, ghost left: Pairs, ghost shown: Colors)
      requires s < |nbrs| == |color| && |root| == |color|
      requires Tallying(NO_TALLY, counted) && Shows(s, NO_TALLY, color[s := toMove])
      modifies this`timestamp, this`tempLedges, this`removestamp, this`reference, zobrist`hash
      ensures reference == old(reference)
      ensures Tallying(t, left) && Met(color, root, t, Around(nbrs, s)) && Left(counted, left, s, Around(nbrs, s))
      ensures Shows(s, t, shown) && Scored(k, t)
      ensures k.empties != 0 <==> NextToEmpty(nbrs, color, s)
    {
      hide Graph, Met, Left, Tallied, Grouped, Timely, Taken, Scored, Shows, Tallying, FirstOf, Sizes;
      k, t, left, shown := Score(0, 0, 0, 0, 0), NO_TALLY, counted, color[s := toMove];
      TryStart(s);
      FirstOfNone(nbrs[s]);
      for i := 0 to |nbrs[s]|
        invariant reference == old(reference)
        invariant Tallying(t, left) && Met(color, root, t, FirstOf(nbrs[s], i))
          && Left(counted, left, s, FirstOf(nbrs[s], i))
        invariant Shows(s, t, shown) && Scored(k, t)
        invariant k.empties != 0 <==> exists j :: 0 <= j < i && IsEmpty(color, nbrs[s][j])
      {
        NotYetVisited(nbrs, s, i);
        FirstOfNext(nbrs[s], i);
        var nb := nbrs[s][i];
        assert Near(nbrs, s, nb);
        TryInside(s, nb, t, left);
        if color[nb] == EMPTY {
          EmptyVisited(nbrs, color, root, counted, t, left, s, FirstOf(nbrs[s], i), nb);
          ScoredMore(k, t);
          k := k.(empties := k.empties + 1);
        } else {
          k, t, left, shown := TryNeighbour(s, nb, k, t, left, shown, FirstOf(nbrs[s], i));
        }
      }
      FirstOfAll(nbrs[s]);
      assert FirstOf(nbrs[s], |nbrs[s]|) == Around(nbrs, s);
      NextToEmptyIff(nbrs, color, s);
    }

    lemma TryStart(s: nat)
      requires Tallying(NO_TALLY, counted)
      ensures |root| == |color| == |nbrs| && Graph(nbrs)
      ensures Met(color, root, NO_TALLY, {}) && Left(counted, counted, s, {}) && Scored(Score(0, 0, 0, 0, 0), NO_TALLY)
    {
      hide Graph, Forest, Joined, Whole, Full, Counts, Tallied;
    }

    lemma TryInside(s: nat, nb: nat, t: Tally, left: Pairs)
      requires Tallying(t, left) && Near(nbrs, s, nb)
      ensures nb < |color| && |root| == |color| && Full(nbrs, color, counted)
    {
      hide Forest, Joined, Whole, Full, Counts, Tallied;
    }

    /**
      Whether the board accepts a move: on a square that was never used and has an empty
      neighbour, or if the resulting position's hash is new and the move is sensible.
     */
    ghost predicate IsUseful(s: nat)
      reads this`color, this`used, this`toMove, this`zobrist, zobrist`hashSet
    {
      && IsEmpty(color, s) && |used| == |color| && (toMove == WHITE || toMove == BLACK)
      && (|| (!used[s] && NextToEmpty(nbrs, color, s))
          || (Sensible(nbrs, color, s, toMove)
              && Fits(zobristStrings, Played(nbrs, color, s, toMove))
              && HashOf(zobristStrings, Played(nbrs, color, s, toMove)) !in zobrist.hashSet))
    }

    method Useful(s: nat) returns (r: bool)
      requires Valid() && IsEmpty(color, s)
      modifies this`now, this`timestamp, this`tempLedges, this`removestamp, this`reference, zobrist`hash
      ensures Valid()
      ensures r == IsUseful(s)
    {
      hide HashOf, Recorded, Remembered, Indexed, Timely, NextToEmpty, Sensible, Played;
      UsefulFacts();
      NextMoment();
      var fast := UsefulFast(s);
      if fast {
        return true;
      }
      r := UsefulSlow(s);
    }

    lemma UsefulFacts()
      requires Valid()
      ensures Sizes() && Fits(zobristStrings, color)
    {
      hide Graph, Forest, HashOf, Joined, Whole, Full, Counts, Recorded;
    }

    /** A new time stamp, which no square has. */
    method NextMoment()
      requires Valid()
      modifies this`now
      ensures Valid() && NoStamps()
    {
      hide Graph, Forest, HashOf, Joined, Whole, Full, Counts, Recorded, Position;
      now := now + 1;
    }

    ghost predicate NoStamps()
      reads this`removestamp, this`timestamp, this`now
    {
      && |removestamp| == |timestamp|
      && forall p :: 0 <= p < |removestamp| ==> removestamp[p] != now && timestamp[p] != now
    }

    /** The move is tried: the hash becomes that of the position it leads to, and is restored. */
    method UsefulSlow(s: nat) returns (r: bool)
      requires Valid() && IsEmpty(color, s) && NoStamps()
      modifies this`timestamp, this`tempLedges, this`removestamp, this`reference, zobrist`hash
      ensures Valid()
      ensures r == (Sensible(nbrs, color, s, toMove)
        && Fits(zobristStrings, Played(nbrs, color, s, toMove))
        && HashOf(zobristStrings, Played(nbrs, color, s, toMove)) !in zobrist.hashSet)
    {
      hide Grouped, HashOf, Recorded, Timely, Tallied, Tallying, Shows, Taken, Played, Sensible, Met, Left,
        Scored, NoStamps;
      SlowStart(s);
      var oldHash := zobrist.hash;
      zobrist.Update(s, color[s], toMove, color);
      SlowShows(s);
      var k;
      ghost var t, left, shown;
      k, t, left, shown := TryAll(s);
      SlowEnd(s, k, t, left, shown);
      var dupe := zobrist.Dupe();
      zobrist.hash := oldHash;
      var strongNeighs := k.neighs - k.weakNeighs;
      var strongOpps := k.opps - k.weakOpps;
      r := !dupe && (k.empties != 0 || k.weakOpps != 0
        || (strongNeighs != 0 && (strongOpps != 0 || k.weakNeighs != 0)));
    }

    lemma SlowStart(s: nat)
      requires Valid() && IsEmpty(color, s) && NoStamps()
      ensures s < |nbrs| == |color| && |root| == |color| && Graph(nbrs)
      ensures Tallying(NO_TALLY, counted)
      ensures ShownAs(color, root, removestamp, now, {}, color[s := toMove])
    {
      hide Graph, Forest, HashOf, Joined, Whole, Full, Counts, Recorded, Position;
      SizesOfGroups();
    }

    lemma SizesOfGroups()
      requires Grouped()
      ensures |nbrs| == |color| == |root| == |ledges| == |reference|
    {
      hide Graph, Forest, Joined, Whole, Full, Counts;
    }

    lemma SlowShows(s: nat)
      requires IsEmpty(color, s) && (toMove == WHITE || toMove == BLACK) && |nbrs| == |color|
      requires Hashed(color[s := toMove]) && ShownAs(color, root, removestamp, now, {}, color[s := toMove])
      ensures Shows(s, NO_TALLY, color[s := toMove])
    {
      TakenStart(nbrs, color[s := toMove], s, toMove);
      hide HashOf, Taken, ShownAs;
    }

    lemma SlowEnd(s: nat, k: Score, t: Tally, left: Pairs, shown: Colors)
      requires s < |nbrs| && |root| == |color|
      requires Tallying(t, left) && Met(color, root, t, Around(nbrs, s)) && Left(counted, left, s, Around(nbrs, s))
      requires Shows(s, t, shown) && Scored(k, t)
      requires k.empties != 0 <==> NextToEmpty(nbrs, color, s)
      ensures Grouped() && Timely() && shown == Played(nbrs, color, s, toMove) && Fits(zobristStrings, shown)
      ensures Hashed(shown)
      ensures Sensible(nbrs, color, s, toMove) <==>
        (k.empties != 0 || k.weakOpps != 0
          || (k.neighs - k.weakNeighs != 0 && (k.opps - k.weakOpps != 0 || k.weakNeighs != 0)))
    {
      hide Forest, HashOf, Tallied, Met, Left, Joined, Whole, Full, Counts, Taken, Around, NextTo, NextToEmpty,
        Graph, Position;
      TallyMeans(nbrs, color, root, timestamp, tempLedges, now, toMove, t, counted, left, s);
      ShownIsPlayed(nbrs, color, root, timestamp, tempLedges, now, toMove, t, counted, left, s, removestamp, shown);
    }

    // -------------------------------------------------------------------
    // What a game keeps
    // -------------------------------------------------------------------

    /** Board.check: a square's root tells its group apart, and has the number of the group's ledges. */
    lemma CheckHolds(p: nat)
      requires Valid() && Stone(color, p)
      ensures |root| == |ledges| == |color| && root[p] < |color|
      ensures forall q: nat :: Stone(color, q) ==> (root[q] == root[p] <==> Connected(nbrs, color, p, q))
      ensures ledges[root[p]] == |LedgePairs(nbrs, color, p)|
    {
      hide HashOf, Recorded;
      RootOf(color, reference, root, born, p);
      hide Forest;
      forall q: nat | Stone(color, q) ensures root[q] == root[p] <==> Connected(nbrs, color, p, q) {
        RootIffConnected(nbrs, color, root, 0, p, q);
      }
      LedgesOfGroup(nbrs, color, root, counted, p);
    }

    /** An accepted move leads to a position that was never on the board, and leaves no group without a ledge. */
    lemma UsefulIsSafe(s: nat)
      requires Valid() && IsUseful(s)
      ensures s < |color| && Played(nbrs, color, s, toMove) !in seen
      ensures AllBreathe(nbrs, color) ==> AllBreathe(nbrs, Played(nbrs, color, s, toMove))
    {
      hide HashOf, Forest, Joined, Whole, Full, Counts, Played, Sensible, Recorded;
      var next := Played(nbrs, color, s, toMove);
      StoneStays(nbrs, color, s, toMove, s);
      if !used[s] && NextToEmpty(nbrs, color, s) {
        UnusedIsNew(zobristStrings, seen, used, zobrist.hashSet, next, s);
      } else {
        HashIsNew(zobristStrings, seen, used, zobrist.hashSet, next);
      }
      if !used[s] && NextToEmpty(nbrs, color, s) {
        NextToEmptyIsSensible(nbrs, color, s, toMove);
      }
      SensibleBreathes(nbrs, color, s, toMove);
      if AllBreathe(nbrs, color) {
        AllBreatheIff(nbrs, color, s, toMove);
      }
    }

    /** Which moves are accepted, in terms of the position that a move leads to. */
    lemma UsefulIff(s: nat)
      requires Valid() && IsEmpty(color, s)
      ensures |used| == |color| && Fits(zobristStrings, Played(nbrs, color, s, toMove))
      ensures IsUseful(s) <==>
        || (!used[s] && NextToEmpty(nbrs, color, s))
        || (HashOf(zobristStrings, Played(nbrs, color, s, toMove)) !in zobrist.hashSet
          && Breathes(nbrs, Played(nbrs, color, s, toMove), s) && NotOnlyStrongFriends(nbrs, color, s, toMove))
    {
      hide HashOf, Forest, Joined, Whole, Full, Counts, Played, Sensible, Recorded, Breathes;
      SensibleIff(nbrs, color, s, toMove);
      UsefulFacts();
      PlayedIsTaken(nbrs, color, s, toMove);
      TakenFits(nbrs, color, Played(nbrs, color, s, toMove), zobristStrings, s, toMove);
    }

    /** EmptySet.random_choice with an arbitrary choice of index in every round. */
    method RandomChoice() returns (pos: int)
      requires Valid()
      modifies this`now, this`timestamp, this`tempLedges, this`removestamp, this`reference, zobrist`hash, emptyset
      ensures Valid()
      ensures pos == PASS || (0 <= pos && IsUseful(pos))
      ensures pos == PASS ==> forall p: nat :: !IsUseful(p)
    {
      hide Grouped, Remembered, Timely;
      var choices := |emptyset.empties|;
      while choices > 0
        invariant Valid() && 0 <= choices <= |emptyset.empties|
        invariant forall j :: choices <= j < |emptyset.empties| ==> !IsUseful(emptyset.empties[j])
        decreases choices
      {
        var i: nat :| i < choices;
        var p := emptyset.empties[i];
        assert p in emptyset.Points();
        var ok := Useful(p);
        if ok {
          return p;
        }
        choices := choices - 1;
        emptyset.Swap(i, choices);
      }
      forall p: nat ensures !IsUseful(p) {
        if IsEmpty(color, p) {
          assert p in emptyset.Points();
          ghost var j :| 0 <= j < |emptyset.empties| && emptyset.empties[j] == p;
        }
      }
      pos := PASS;
    }

    lemma ListedIsEmpty(i: nat)
      requires Valid() && i < |emptyset.empties|
      ensures IsEmpty(color, emptyset.empties[i])
    {
      hide Grouped, Remembered, Timely;
      assert emptyset.empties[i] in emptyset.Points();
    }

    lemma UsefulIsListed(p: nat)
      requires Valid() && IsUseful(p)
      ensures p in emptyset.empties
    {
      hide Grouped, Remembered, Timely;
      assert p in emptyset.Points();
    }

    method UsefulMoves() returns (moves: seq<nat>)
      requires Valid()
      modifies this`now, this`timestamp, this`tempLedges, this`removestamp, this`reference, zobrist`hash
      ensures Valid()
      ensures forall p: nat :: p in moves <==> IsUseful(p)
    {
      hide Valid, IsUseful;
      moves := [];
      for i := 0 to |emptyset.empties|
        invariant Valid()
        invariant forall p: nat :: p in moves <==> IsUseful(p) && p in emptyset.empties[..i]
      {
        ListedIsEmpty(i);
        var p := emptyset.empties[i];
        var ok := Useful(p);
        if ok {
          moves := moves + [p];
        }
      }
      assert emptyset.empties[..|emptyset.empties|] == emptyset.empties;
      forall p: nat | IsUseful(p) ensures p in emptyset.empties {
        UsefulIsListed(p);
      }
    }

    /** UCTNode.random_playout: every stone makes a position that was never seen before. */
    method RandomPlayout(maxMoves: nat)
      requires Valid() && AllBreathe(nbrs, color)
      modifies this, emptyset, zobrist
      ensures Valid() && AllBreathe(nbrs, color)
      ensures old(seen) <= seen && |seen| - |old(seen)| == Stones(history) - Stones(old(history))
    {
      hide Grouped, Remembered, Timely, Indexed, AllBreathe, Played;
      for x := 0 to maxMoves
        invariant Valid() && AllBreathe(nbrs, color)
        invariant emptyset == old(emptyset) && zobrist == old(zobrist)
        invariant old(seen) <= seen && |seen| - |old(seen)| == Stones(history) - Stones(old(history))
      {
        if finished {
          break;
        }
        var pos := RandomChoice();
        StonesMore(history, pos);
        if pos != PASS {
          UsefulIsSafe(pos);
        }
        Move(pos);
      }
    }
  }

  lemma RootIsSquare(nbrs: Adjacency, color: Colors, root: seq<nat>, p: nat)
    requires Whole(nbrs, color, root) && Stone(color, p)
    ensures root[p] < |color| && Stone(color, root[p]) && color[root[p]] == color[p]
  {
    ConnectedIsStones(nbrs, color, p, root[p]);
  }

  lemma UnusedIsNew(z: Strings, seen: set<Colors>, used: seq<bool>, hashes: set<Hash>, next: Colors, s: nat)
    requires Recorded(z, seen, used, hashes) && s < |used| && !used[s] && Stone(next, s)
    ensures next !in seen
  {}

  lemma HashIsNew(z: Strings, seen: set<Colors>, used: seq<bool>, hashes: set<Hash>, next: Colors)
    requires Recorded(z, seen, used, hashes) && Fits(z, next) && HashOf(z, next) !in hashes
    ensures next !in seen
  {}

  lemma NextToEmptyIsSensible(nbrs: Adjacency, color: Colors, s: nat, c: nat)
    requires (c == WHITE || c == BLACK) && NextToEmpty(nbrs, color, s)
    ensures Sensible(nbrs, color, s, c)
  {}

  lemma LedgesOfGroup(nbrs: Adjacency, color: Colors, root: seq<nat>, counted: Pairs, p: nat)
    requires Graph(nbrs) && |nbrs| == |color| && Whole(nbrs, color, root) && Joined(nbrs, color, root, 0, {})
    requires Full(nbrs, color, counted) && Stone(color, p)
    ensures Of(counted, root, root[p]) == LedgePairs(nbrs, color, p)
  {
    forall m: nat, e: nat ensures (m, e) in Of(counted, root, root[p]) <==> (m, e) in LedgePairs(nbrs, color, p) {
      if Stone(color, m) {
        RootIffConnected(nbrs, color, root, 0, p, m);
      } else if Connected(nbrs, color, p, m) {
        ConnectedIsStones(nbrs, color, p, m);
      }
    }
  }
}
