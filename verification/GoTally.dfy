/**
  The count that Board.useful of own/go.py makes of the groups around an empty square, and
  what its answer means for the move.
 */
module GoTally {

  import opened GoRules
  import opened GoGroups

  // ---------------------------------------------------------------------
  // The meaning of the answer
  // ---------------------------------------------------------------------

  /** The group of `p` has a ledge other than `s`. */
  ghost predicate OtherLedge(nbrs: Adjacency, color: Colors, p: nat, s: nat) {
    exists q: nat, e: nat :: Connected(nbrs, color, p, q) && Near(nbrs, q, e) && IsEmpty(color, e) && e != s
  }

  predicate Coloured(color: Colors, p: nat, c: nat) {
    p < |color| && color[p] == c
  }

  /** A group of colour `c` next to `s` that would keep a ledge, or not, without `s`. */
  ghost predicate NextTo(nbrs: Adjacency, color: Colors, s: nat, c: nat, strong: bool) {
    exists q: nat :: Near(nbrs, s, q) && Coloured(color, q, c) && OtherLedge(nbrs, color, q, s) == strong
  }

  ghost predicate NextToEmpty(nbrs: Adjacency, color: Colors, s: nat) {
    exists e: nat :: Near(nbrs, s, e) && IsEmpty(color, e)
  }

  /** The rule by which a move counts as sensible. */
  ghost predicate Sensible(nbrs: Adjacency, color: Colors, s: nat, c: nat)
    requires c == WHITE || c == BLACK
  {
    || NextToEmpty(nbrs, color, s)
    || NextTo(nbrs, color, s, Opponent(c), false)
    || (NextTo(nbrs, color, s, c, true)
      && (NextTo(nbrs, color, s, Opponent(c), true) || NextTo(nbrs, color, s, c, false)))
  }

  /** A foe's group loses the ledge `s`: it breathes on exactly if it has another. */
  lemma FoeBreathesIff(nbrs: Adjacency, color: Colors, s: nat, c: nat, p: nat)
    requires c == WHITE || c == BLACK
    requires IsEmpty(color, s) && Coloured(color, p, Opponent(c))
    ensures Breathes(nbrs, color[s := c], p) <==> OtherLedge(nbrs, color, p, s)
  {
    var placed := color[s := c];
    if Breathes(nbrs, placed, p) {
      var q, e := LedgeOf(nbrs, placed, p);
      MoreStones(nbrs, placed, color, p, q);
      assert IsEmpty(color, e);
    }
    if OtherLedge(nbrs, color, p, s) {
      var q: nat, e: nat :| Connected(nbrs, color, p, q) && Near(nbrs, q, e) && IsEmpty(color, e) && e != s;
      MoreStones(nbrs, color, placed, p, q);
      assert IsEmpty(placed, e);
    }
  }

  /** A sensible move leaves the new stone's group a ledge. */
  lemma SensibleBreathes(nbrs: Adjacency, color: Colors, s: nat, c: nat)
    requires c == WHITE || c == BLACK
    requires Graph(nbrs) && Position(nbrs, color) && IsEmpty(color, s) && Sensible(nbrs, color, s, c)
    ensures Breathes(nbrs, Played(nbrs, color, s, c), s)
  {
    PlayedIsTaken(nbrs, color, s, c);
    if NextToEmpty(nbrs, color, s) {
      var e: nat :| Near(nbrs, s, e) && IsEmpty(color, e);
      EmptyStays(nbrs, color, s, c, e);
    } else if NextTo(nbrs, color, s, Opponent(c), false) {
      var q: nat :| Near(nbrs, s, q) && Coloured(color, q, Opponent(c)) && !OtherLedge(nbrs, color, q, s);
      FoeIsCaptured(nbrs, color, s, c, q);
    } else {
      var q: nat :| Near(nbrs, s, q) && Coloured(color, q, c) && OtherLedge(nbrs, color, q, s);
      FriendHelps(nbrs, color, s, c, q);
    }
  }

  /** Next to `s` is something else than a friend that keeps a ledge. */
  ghost predicate NotOnlyStrongFriends(nbrs: Adjacency, color: Colors, s: nat, c: nat) {
    exists q: nat :: Near(nbrs, s, q) && !(Coloured(color, q, c) && OtherLedge(nbrs, color, q, s))
  }

  /**
    The rule of `useful` stands for this: the new stone's group has a ledge after the move,
    and the move does not only fill a square between friends that keep one.
   */
  lemma SensibleIff(nbrs: Adjacency, color: Colors, s: nat, c: nat)
    requires c == WHITE || c == BLACK
    requires Graph(nbrs) && Position(nbrs, color) && IsEmpty(color, s)
    ensures Sensible(nbrs, color, s, c) <==>
      Breathes(nbrs, Played(nbrs, color, s, c), s) && NotOnlyStrongFriends(nbrs, color, s, c)
  {
    hide Played, OtherLedge, Breathes;
    if Sensible(nbrs, color, s, c) {
      SensibleBreathes(nbrs, color, s, c);
    }
    if Breathes(nbrs, Played(nbrs, color, s, c), s) && NotOnlyStrongFriends(nbrs, color, s, c)
      && !NextToEmpty(nbrs, color, s) && !NextTo(nbrs, color, s, Opponent(c), false) {
      NothingTaken(nbrs, color, s, c);
      LedgeThroughFriend(nbrs, color, s, c);
    }
  }

  /** If all opponents next to `s` keep a ledge, the move captures nothing. */
  lemma NothingTaken(nbrs: Adjacency, color: Colors, s: nat, c: nat)
    requires c == WHITE || c == BLACK
    requires Graph(nbrs) && |color| == |nbrs| && IsEmpty(color, s) && !NextTo(nbrs, color, s, Opponent(c), false)
    ensures Played(nbrs, color, s, c) == color[s := c]
  {
    hide OtherLedge, Breathes;
    var placed := color[s := c];
    forall p: nat | p < |color| ensures !Captured(nbrs, placed, s, c, p) {
      if placed[p] == Opponent(c) && Touches(nbrs, placed, p, s) {
        var q: nat :| Connected(nbrs, placed, p, q) && Near(nbrs, s, q);
        ConnectedIsStones(nbrs, placed, p, q);
        FoeBreathesIff(nbrs, color, s, c, q);
        BreathesTogether(nbrs, placed, p, q);
      }
    }
  }

  /** The ledge of the new stone's group, if it is not next to the stone, belongs to a friend beside it. */
  lemma LedgeThroughFriend(nbrs: Adjacency, color: Colors, s: nat, c: nat)
    requires c == WHITE || c == BLACK
    requires Graph(nbrs) && |color| == |nbrs| && IsEmpty(color, s)
    requires Breathes(nbrs, color[s := c], s) && !NextToEmpty(nbrs, color, s)
    ensures NextTo(nbrs, color, s, c, true)
  {
    var placed := color[s := c];
    var m, e := LedgeOf(nbrs, placed, s);
    ConnectedIsStones(nbrs, placed, s, m);
    if !NextTo(nbrs, color, s, c, true) {
      var within := set p: nat | p < |color| && (p == s || (color[p] == c && !OtherLedge(nbrs, color, p, s)));
      WeakIsClosed(nbrs, color, s, c, within);
      ConnectedStaysIn(nbrs, placed, within, s, m);
      ConnectedSelf(nbrs, color, m);
    }
  }

  lemma WeakIsClosed(nbrs: Adjacency, color: Colors, s: nat, c: nat, within: set<nat>)
    requires c == WHITE || c == BLACK
    requires Graph(nbrs) && |color| == |nbrs| && IsEmpty(color, s) && !NextTo(nbrs, color, s, c, true)
    requires within == set p: nat | p < |color| && (p == s || (color[p] == c && !OtherLedge(nbrs, color, p, s)))
    ensures Closed(nbrs, color[s := c], within)
  {
    var placed := color[s := c];
    forall p: nat, q: nat | p in within && Near(nbrs, p, q) && Stone(placed, q) && placed[q] == placed[p]
      ensures q in within
    {
      if p != s && q != s && OtherLedge(nbrs, color, q, s) {
        var m: nat, e: nat :| Connected(nbrs, color, q, m) && Near(nbrs, m, e) && IsEmpty(color, e) && e != s;
        ConnectedNear(nbrs, color, p, q);
        ConnectedTrans(nbrs, color, p, q, m);
      }
    }
  }

  lemma StoneStays(nbrs: Adjacency, color: Colors, s: nat, c: nat, e: nat)
    requires c == WHITE || c == BLACK
    requires Graph(nbrs) && |color| == |nbrs| && s < |color| && e < |color|
    ensures var r := Played(nbrs, color, s, c);
      && Stone(r, s) && r[s] == c
      && (color[e] == c ==> r[e] == c)
      && (color[e] == EMPTY && e != s ==> r[e] == EMPTY)
  {
    PlayedIsTaken(nbrs, color, s, c);
    hide Played;
    TakenOnlyOpponents(nbrs, color[s := c], Played(nbrs, color, s, c), s, c, s);
    TakenOnlyOpponents(nbrs, color[s := c], Played(nbrs, color, s, c), s, c, e);
  }

  lemma EmptyStays(nbrs: Adjacency, color: Colors, s: nat, c: nat, e: nat)
    requires c == WHITE || c == BLACK
    requires Graph(nbrs) && |color| == |nbrs| && s < |color| && Near(nbrs, s, e) && IsEmpty(color, e)
    ensures Breathes(nbrs, Played(nbrs, color, s, c), s)
  {
    StoneStays(nbrs, color, s, c, e);
    NearSym(nbrs, s, e);
    hide Played;
    var r := Played(nbrs, color, s, c);
    ConnectedSelf(nbrs, r, s);
    HasLedge(nbrs, r, s, s, e);
  }

  lemma FoeIsCaptured(nbrs: Adjacency, color: Colors, s: nat, c: nat, q: nat)
    requires c == WHITE || c == BLACK
    requires Graph(nbrs) && |color| == |nbrs| && IsEmpty(color, s)
    requires Near(nbrs, s, q) && Coloured(color, q, Opponent(c)) && !OtherLedge(nbrs, color, q, s)
    ensures Played(nbrs, color, s, c)[q] == EMPTY && Breathes(nbrs, Played(nbrs, color, s, c), s)
  {
    FoeBreathesIff(nbrs, color, s, c, q);
    ConnectedSelf(nbrs, color[s := c], q);
    assert Touches(nbrs, color[s := c], q, s);
    StoneStays(nbrs, color, s, c, s);
    var r := Played(nbrs, color, s, c);
    ConnectedSelf(nbrs, r, s);
    HasLedge(nbrs, r, s, s, q);
  }

  lemma FriendHelps(nbrs: Adjacency, color: Colors, s: nat, c: nat, q: nat)
    requires c == WHITE || c == BLACK
    requires Graph(nbrs) && |color| == |nbrs| && IsEmpty(color, s)
    requires Near(nbrs, s, q) && Coloured(color, q, c) && OtherLedge(nbrs, color, q, s)
    ensures Breathes(nbrs, Played(nbrs, color, s, c), s)
  {
    var m: nat, e: nat :| Connected(nbrs, color, q, m) && Near(nbrs, m, e) && IsEmpty(color, e) && e != s;
    PlayedIsTaken(nbrs, color, s, c);
    StoneStays(nbrs, color, s, c, q);
    StoneStays(nbrs, color, s, c, e);
    hide Played;
    var r := Played(nbrs, color, s, c);
    MoreStones(nbrs, color, color[s := c], q, m);
    TakenWhole(nbrs, color[s := c], r, s, c, q, m);
    ConnectedNear(nbrs, r, s, q);
    ConnectedTrans(nbrs, r, s, q, m);
    HasLedge(nbrs, r, s, m, e);
  }

  // ---------------------------------------------------------------------
  // The tally
  // ---------------------------------------------------------------------

  /** Roots of the groups around the square that were met: weak when no ledge is left, strong otherwise. */
  datatype Tally = Tally(weakFriends: set<nat>, strongFriends: set<nat>, weakFoes: set<nat>, strongFoes: set<nat>) {
    function All(): set<nat> {
      weakFriends + strongFriends + weakFoes + strongFoes
    }

    function Weak(): set<nat> {
      weakFriends + weakFoes
    }

    function AddStrong(r: nat, friend: bool): Tally {
      if friend then this.(strongFriends := strongFriends + {r}) else this.(strongFoes := strongFoes + {r})
    }

    lemma StrongFacts(r: nat, friend: bool)
      ensures AddStrong(r, friend).weakFoes == weakFoes
    {}

    lemma WeakenFacts(r: nat, friend: bool)
      requires r in (if friend then strongFriends else strongFoes) && r !in Weak()
      ensures Weaken(r, friend).All() == All()
      ensures r !in weakFoes && Weaken(r, friend).weakFoes == if friend then weakFoes else weakFoes + {r}
    {
      var t := Weaken(r, friend);
      assert forall x :: x in All() ==> x in t.All();
    }

    lemma StrongAll(r: nat, friend: bool)
      ensures AddStrong(r, friend).All() == All() + {r}
    {}

    function Weaken(r: nat, friend: bool): Tally {
      if friend then this.(strongFriends := strongFriends - {r}, weakFriends := weakFriends + {r})
      else this.(strongFoes := strongFoes - {r}, weakFoes := weakFoes + {r})
    }
  }

  const NO_TALLY := Tally({}, {}, {}, {})

  /** The numbers that the program keeps. */
  datatype Score = Score(empties: nat, opps: nat, weakOpps: nat, neighs: nat, weakNeighs: nat)

  predicate Scored(k: Score, t: Tally) {
    && t.weakFriends !! t.strongFriends && t.weakFoes !! t.strongFoes
    && k.weakNeighs == |t.weakFriends| && k.neighs == |t.weakFriends| + |t.strongFriends|
    && k.weakOpps == |t.weakFoes| && k.opps == |t.weakFoes| + |t.strongFoes|
  }

  lemma ScoreAdded(k: Score, t: Tally, r: nat, friend: bool)
    requires Scored(k, t) && r !in t.All()
    ensures Scored(if friend then k.(neighs := k.neighs + 1) else k.(opps := k.opps + 1), t.AddStrong(r, friend))
  {}

  lemma ScoreWeakened(k: Score, t: Tally, r: nat, friend: bool)
    requires Scored(k, t) && r in (if friend then t.strongFriends else t.strongFoes)
    ensures Scored(if friend then k.(weakNeighs := k.weakNeighs + 1)
      else k.(weakOpps := k.weakOpps + 1), t.Weaken(r, friend))
  {}

  /** The groups in the tally are the stamped ones, with their temporary counts of the pairs `left`. */
  ghost predicate Tallied(color: Colors, root: seq<nat>, stamp: seq<nat>, temp: seq<int>, now: nat, c: nat, t: Tally,
      left: Pairs) {
    && |color| == |root| == |stamp| == |temp|
    && t.weakFriends !! t.strongFriends && t.weakFoes !! t.strongFoes
    && (forall r :: r in t.All() ==>
      Stone(color, r) && root[r] == r && temp[r] == |Of(left, root, r)| && (r in t.Weak() <==> temp[r] == 0))
    && (forall r :: r in t.All() ==>
      if Coloured(color, r, c) then r !in t.weakFoes && r !in t.strongFoes
      else r !in t.weakFriends && r !in t.strongFriends)
    && (forall r: nat :: Stone(color, r) && root[r] == r ==> (stamp[r] == now <==> r in t.All()))
  }

  /** The tally has the groups of the stones in `visited`. */
  ghost predicate Met(color: Colors, root: seq<nat>, t: Tally, visited: set<nat>)
    requires |root| == |color|
  {
    && (forall q: nat :: q in visited && Stone(color, q) ==> root[q] in t.All())
    && (forall r :: r in t.All() ==> exists q: nat :: q in visited && Stone(color, q) && root[q] == r)
  }

  /** The counted pairs without `s` as a ledge of the squares in `visited`. */
  ghost predicate Left(counted: Pairs, left: Pairs, s: nat, visited: set<nat>) {
    forall m: nat, e: nat :: (m, e) in left <==> (m, e) in counted && !(e == s && m in visited)
  }

  lemma MetMore(color: Colors, root: seq<nat>, t: Tally, t1: Tally, visited: set<nat>, nb: nat)
    requires |root| == |color| && Met(color, root, t, visited) && Stone(color, nb)
    requires t1.All() == t.All() + {root[nb]}
    ensures Met(color, root, t1, visited + {nb})
  {
    forall r | r in t1.All() ensures exists q: nat :: q in visited + {nb} && Stone(color, q) && root[q] == r {
      if r in t.All() {
        var q: nat :| q in visited && Stone(color, q) && root[q] == r;
        assert q in visited + {nb};
      } else {
        assert nb in visited + {nb};
      }
    }
  }

  lemma MetSame(color: Colors, root: seq<nat>, t: Tally, t': Tally, visited: set<nat>)
    requires |root| == |color| && Met(color, root, t, visited) && t'.All() == t.All()
    ensures Met(color, root, t', visited)
  {}

  lemma NoneLeft(left: Pairs, root: seq<nat>, r: nat)
    requires |Of(left, root, r)| == 0
    ensures Of(left, root, r) == {}
  {}

  lemma ScoredMore(k: Score, t: Tally)
    requires Scored(k, t)
    ensures Scored(k.(empties := k.empties + 1), t)
  {}

  lemma EmptyVisited(nbrs: Adjacency, color: Colors, root: seq<nat>, counted: Pairs, t: Tally, left: Pairs, s: nat,
      visited: set<nat>, nb: nat)
    requires |root| == |color| && IsEmpty(color, nb) && Full(nbrs, color, counted)
    requires Met(color, root, t, visited) && Left(counted, left, s, visited)
    ensures Met(color, root, t, visited + {nb}) && Left(counted, left, s, visited + {nb})
  {
    forall r | r in t.All() ensures exists q: nat :: q in visited + {nb} && Stone(color, q) && root[q] == r {
      var q: nat :| q in visited && Stone(color, q) && root[q] == r;
      assert q in visited + {nb};
    }
  }

  lemma NextToEmptyIff(nbrs: Adjacency, color: Colors, s: nat)
    requires s < |nbrs|
    ensures NextToEmpty(nbrs, color, s) <==> exists j :: 0 <= j < |nbrs[s]| && IsEmpty(color, nbrs[s][j])
  {
    if NextToEmpty(nbrs, color, s) {
      var e: nat :| Near(nbrs, s, e) && IsEmpty(color, e);
      var j :| 0 <= j < |nbrs[s]| && nbrs[s][j] == e;
    }
    if j :| 0 <= j < |nbrs[s]| && IsEmpty(color, nbrs[s][j]) {
      assert Near(nbrs, s, nbrs[s][j]);
    }
  }

  lemma LeftAtFirst(color: Colors, root: seq<nat>, counted: Pairs, left: Pairs, s: nat, visited: set<nat>, t: Tally,
      r: nat)
    requires |root| == |color| && Left(counted, left, s, visited) && Met(color, root, t, visited) && r !in t.All()
    requires forall x :: x in counted ==> Stone(color, x.0)
    ensures Of(left, root, r) == Of(counted, root, r)
  {
    forall x | x in Of(counted, root, r) ensures x in Of(left, root, r) {
      assert (x.0, x.1) in counted && Stone(color, x.0);
      assert x.0 !in visited;
      assert (x.0, x.1) in left;
    }
    forall x | x in Of(left, root, r) ensures x in Of(counted, root, r) {
      assert (x.0, x.1) in left;
    }
  }

  /** A group is met for the first time. */
  lemma TallyAdds(color: Colors, root: seq<nat>, stamp: seq<nat>, temp: seq<int>, now: nat, c: nat, t: Tally,
      left: Pairs, r: nat, n: int)
    requires Tallied(color, root, stamp, temp, now, c, t, left)
    requires Stone(color, r) && root[r] == r && r !in t.All() && n == |Of(left, root, r)| && n != 0
    ensures Tallied(color, root, stamp[r := now], temp[r := n], now, c, t.AddStrong(r, color[r] == c), left)
  {}

  lemma TallyStamp(color: Colors, root: seq<nat>, stamp: seq<nat>, temp: seq<int>, now: nat, c: nat, t: Tally,
      left: Pairs, r: nat)
    requires Tallied(color, root, stamp, temp, now, c, t, left) && Stone(color, r) && root[r] == r
    ensures stamp[r] == now <==> r in t.All()
  {}

  lemma LeftLess(left: Pairs, root: seq<nat>, m: nat, s: nat, r: nat)
    requires (m, s) in left && m < |root|
    ensures |Of(left - {(m, s)}, root, r)| == if root[m] == r then |Of(left, root, r)| - 1 else |Of(left, root, r)|
  {
    if root[m] == r {
      assert Of(left, root, r) == Of(left - {(m, s)}, root, r) + {(m, s)};
    } else {
      assert Of(left, root, r) == Of(left - {(m, s)}, root, r);
    }
  }

  /** The group of `m` loses `s`; it becomes weak when nothing is left. */
  lemma TallyLess(color: Colors, root: seq<nat>, stamp: seq<nat>, temp: seq<int>, now: nat, c: nat, t: Tally,
      left: Pairs, m: nat, s: nat)
    requires Tallied(color, root, stamp, temp, now, c, t, left)
    requires Stone(color, m) && (m, s) in left && root[m] in t.All()
    ensures root[m] !in t.Weak() && root[m] < |color|
    ensures root[m] in if color[root[m]] == c then t.strongFriends else t.strongFoes
    ensures temp[root[m]] - 1 == |Of(left - {(m, s)}, root, root[m])|
    ensures var r := root[m];
      Tallied(color, root, stamp, temp[r := temp[r] - 1], now, c, if temp[r] == 1 then t.Weaken(r, color[r] == c)
        else t, left - {(m, s)})
  {
    var r := root[m];
    assert (m, s) in Of(left, root, r);
    forall g | g in t.All()
      ensures |Of(left - {(m, s)}, root, g)| == if r == g then |Of(left, root, g)| - 1 else |Of(left, root, g)| {
      LeftLess(left, root, m, s, g);
    }
  }

  /** What is left in the end are the ledges other than `s`. */
  lemma WeakIff(nbrs: Adjacency, color: Colors, root: seq<nat>, counted: Pairs, left: Pairs, s: nat, p: nat)
    requires Graph(nbrs) && |nbrs| == |color| && Whole(nbrs, color, root) && Joined(nbrs, color, root, 0, {})
    requires Full(nbrs, color, counted) && s < |nbrs| && Left(counted, left, s, Around(nbrs, s)) && Stone(color, p)
    ensures Of(left, root, root[p]) != {} <==> OtherLedge(nbrs, color, p, s)
  {
    if Of(left, root, root[p]) != {} {
      var x :| x in Of(left, root, root[p]);
      assert (x.0, x.1) in left;
      assert Near(nbrs, x.0, s) ==> Near(nbrs, s, x.0);
      SameRootConnects(nbrs, color, root, p, x.0);
      assert x.1 != s;
    }
    if OtherLedge(nbrs, color, p, s) {
      var q: nat, e: nat :| Connected(nbrs, color, p, q) && Near(nbrs, q, e) && IsEmpty(color, e) && e != s;
      ConnectedIsStones(nbrs, color, p, q);
      ConnectedHasRoot(nbrs, color, root, 0, {}, p, q);
      assert (q, e) in left;
      assert (q, e) in Of(left, root, root[p]);
    }
  }

  lemma TallyAt(color: Colors, root: seq<nat>, stamp: seq<nat>, temp: seq<int>, now: nat, c: nat, t: Tally,
      left: Pairs, r: nat)
    requires Tallied(color, root, stamp, temp, now, c, t, left) && r in t.All()
    ensures Stone(color, r)
    ensures color[r] == c && Of(left, root, r) != {} <==> r in t.strongFriends
    ensures color[r] == c && Of(left, root, r) == {} <==> r in t.weakFriends
    ensures color[r] != c && Of(left, root, r) != {} <==> r in t.strongFoes
    ensures color[r] != c && Of(left, root, r) == {} <==> r in t.weakFoes
  {
    assert |Of(left, root, r)| == 0 <==> Of(left, root, r) == {};
  }

  lemma WeakStrong(nbrs: Adjacency, color: Colors, root: seq<nat>, stamp: seq<nat>, temp: seq<int>, now: nat, c: nat,
    t: Tally, counted: Pairs, left: Pairs, s: nat, p: nat)
    requires Graph(nbrs) && |nbrs| == |color| && Whole(nbrs, color, root) && Joined(nbrs, color, root, 0, {})
    requires Full(nbrs, color, counted) && s < |nbrs| && Left(counted, left, s, Around(nbrs, s))
    requires Tallied(color, root, stamp, temp, now, c, t, left) && Met(color, root, t, Around(nbrs, s))
    requires Stone(color, p) && Near(nbrs, s, p)
    ensures color[p] == c && OtherLedge(nbrs, color, p, s) <==> root[p] in t.strongFriends
    ensures color[p] == c && !OtherLedge(nbrs, color, p, s) <==> root[p] in t.weakFriends
    ensures color[p] != c && OtherLedge(nbrs, color, p, s) <==> root[p] in t.strongFoes
    ensures color[p] != c && !OtherLedge(nbrs, color, p, s) <==> root[p] in t.weakFoes
  {
    WeakIff(nbrs, color, root, counted, left, s, p);
    RootHasColour(nbrs, color, root, p);
    hide Whole, Joined, Full, Left, Tallied, OtherLedge, Of, Graph;
    assert root[p] in t.All();
    TallyAt(color, root, stamp, temp, now, c, t, left, root[p]);
  }

  lemma RootHasColour(nbrs: Adjacency, color: Colors, root: seq<nat>, p: nat)
    requires Whole(nbrs, color, root) && Stone(color, p)
    ensures Stone(color, root[p]) && color[root[p]] == color[p]
  {
    ConnectedIsStones(nbrs, color, p, root[p]);
  }

  /** One kind of group: `found` has the roots of those next to `s`. */
  lemma OneKind(nbrs: Adjacency, color: Colors, root: seq<nat>, s: nat, c: nat, strong: bool, found: set<nat>)
    requires |root| == |color| && c != EMPTY
    requires forall q: nat :: Near(nbrs, s, q) && Stone(color, q) ==>
      (color[q] == c && OtherLedge(nbrs, color, q, s) == strong <==> root[q] in found)
    requires forall r :: r in found ==> exists q: nat :: Near(nbrs, s, q) && Stone(color, q) && root[q] == r
    ensures NextTo(nbrs, color, s, c, strong) <==> found != {}
  {
    hide OtherLedge;
    if found != {} {
      var r :| r in found;
      var q: nat :| Near(nbrs, s, q) && Stone(color, q) && root[q] == r;
      assert Coloured(color, q, c) && OtherLedge(nbrs, color, q, s) == strong;
    }
    if NextTo(nbrs, color, s, c, strong) {
      var q: nat :| Near(nbrs, s, q) && Coloured(color, q, c) && OtherLedge(nbrs, color, q, s) == strong;
      assert Stone(color, q);
    }
  }

  /** The sets of the tally are empty exactly when there is no such group. */
  lemma TallyMeans(nbrs: Adjacency, color: Colors, root: seq<nat>, stamp: seq<nat>, temp: seq<int>, now: nat, c: nat,
    t: Tally, counted: Pairs, left: Pairs, s: nat)
    requires Graph(nbrs) && Position(nbrs, color) && Whole(nbrs, color, root) && Joined(nbrs, color, root, 0, {})
    requires c == WHITE || c == BLACK
    requires Full(nbrs, color, counted) && s < |nbrs| && Left(counted, left, s, Around(nbrs, s))
    requires Tallied(color, root, stamp, temp, now, c, t, left) && Met(color, root, t, Around(nbrs, s))
    ensures NextTo(nbrs, color, s, c, true) <==> t.strongFriends != {}
    ensures NextTo(nbrs, color, s, c, false) <==> t.weakFriends != {}
    ensures NextTo(nbrs, color, s, Opponent(c), true) <==> t.strongFoes != {}
    ensures NextTo(nbrs, color, s, Opponent(c), false) <==> t.weakFoes != {}
  {
    forall q: nat | Near(nbrs, s, q) && Stone(color, q)
      ensures color[q] == c && OtherLedge(nbrs, color, q, s) <==> root[q] in t.strongFriends
      ensures color[q] == c && !OtherLedge(nbrs, color, q, s) <==> root[q] in t.weakFriends
      ensures color[q] == Opponent(c) && OtherLedge(nbrs, color, q, s) <==> root[q] in t.strongFoes
      ensures color[q] == Opponent(c) && !OtherLedge(nbrs, color, q, s) <==> root[q] in t.weakFoes {
      WeakStrong(nbrs, color, root, stamp, temp, now, c, t, counted, left, s, q);
    }
    forall r | r in t.All() ensures exists q: nat :: Near(nbrs, s, q) && Stone(color, q) && root[q] == r {
      AllMet(nbrs, color, root, t, s, r);
    }
    hide OtherLedge, Met, Tallied, Left, Full, Whole, Joined, Graph, NextTo, Position;
    OneKind(nbrs, color, root, s, c, true, t.strongFriends);
    OneKind(nbrs, color, root, s, c, false, t.weakFriends);
    OneKind(nbrs, color, root, s, Opponent(c), true, t.strongFoes);
    OneKind(nbrs, color, root, s, Opponent(c), false, t.weakFoes);
  }

  lemma AllMet(nbrs: Adjacency, color: Colors, root: seq<nat>, t: Tally, s: nat, r: nat)
    requires |root| == |color| && s < |nbrs| && Met(color, root, t, Around(nbrs, s)) && r in t.All()
    ensures exists q: nat :: Near(nbrs, s, q) && Stone(color, q) && root[q] == r
  {
    var q: nat :| q in Around(nbrs, s) && Stone(color, q) && root[q] == r;
    assert Near(nbrs, s, q);
  }

  // ---------------------------------------------------------------------
  // A trial capture
  // ---------------------------------------------------------------------

  lemma NothingLeft(nbrs: Adjacency, color: Colors, root: seq<nat>, counted: Pairs, left: Pairs, s: nat, p: nat,
      visited: set<nat>)
    requires Graph(nbrs) && Joined(nbrs, color, root, 0, {}) && Full(nbrs, color, counted)
    requires Left(counted, left, s, visited) && Stone(color, p) && Of(left, root, root[p]) == {}
    ensures !OtherLedge(nbrs, color, p, s)
  {
    forall q: nat, e: nat | Connected(nbrs, color, p, q) && Near(nbrs, q, e) && IsEmpty(color, e) ensures e == s {
      ConnectedIsStones(nbrs, color, p, q);
      ConnectedHasRoot(nbrs, color, root, 0, {}, p, q);
      assert (q, e) in counted;
      assert (q, e) in left <==> (q, e) in Of(left, root, root[p]);
    }
  }

  /** The position shown by the hash lacks the groups of `taken`; only their squares can have the stamp. */
  ghost predicate ShownAs(color: Colors, root: seq<nat>, stamps: seq<nat>, now: nat, taken: set<nat>, shown: Colors) {
    && |color| == |root| == |stamps| == |shown|
    && forall q: nat :: Stone(color, q) ==>
      shown[q] == (if root[q] in taken then EMPTY else color[q]) && (stamps[q] == now ==> root[q] in taken)
  }

  lemma ShownLess(color: Colors, root: seq<nat>, stamps: seq<nat>, stamps': seq<nat>, now: nat, taken: set<nat>,
      shown: Colors, r: nat)
    requires ShownAs(color, root, stamps, now, taken, shown) && |stamps'| == |stamps|
    requires forall q: nat :: q < |stamps| && q !in Group(color, root, r) ==> stamps'[q] == stamps[q]
    ensures ShownAs(color, root, stamps', now, taken + {r}, Minus(shown, Group(color, root, r)))
  {}

  lemma TryTakesAll(nbrs: Adjacency, color: Colors, root: seq<nat>, r: nat, gone: set<nat>)
    requires Graph(nbrs) && Whole(nbrs, color, root) && Joined(nbrs, color, root, 0, {}) && Stone(color, r)
      && root[r] == r
    requires Explored(nbrs, Group(color, root, r), {}, gone) && r in gone
    ensures gone == Group(color, root, r)
  {
    hide Explored;
    forall m: nat, q: nat | m in Group(color, root, r) && Near(nbrs, m, q) && Stone(color, q) && color[q] == color[m]
      ensures root[q] == root[m] {
    }
    ExploredAll(nbrs, color, root, r, gone);
  }

  lemma MinusAt(color: Colors, gone: set<nat>)
    ensures |Minus(color, gone)| == |color|
    ensures forall p :: 0 <= p < |color| ==> Minus(color, gone)[p] == if p in gone then EMPTY else color[p]
  {}

  /** Taking the group of `nb`, which has nothing left, off the position shown by the hash. */
  lemma TryIsTaken(nbrs: Adjacency, color: Colors, root: seq<nat>, counted: Pairs, left: Pairs, s: nat, c: nat,
    shown: Colors, nb: nat, visited: set<nat>)
    requires Graph(nbrs) && Position(nbrs, color) && Whole(nbrs, color, root) && Joined(nbrs, color, root, 0, {})
    requires Full(nbrs, color, counted) && Left(counted, left, s, visited)
    requires (c == WHITE || c == BLACK) && IsEmpty(color, s) && Near(nbrs, s, nb)
    requires Stone(color, nb) && color[nb] != c && Stone(shown, nb) && Of(left, root, root[nb]) == {}
    requires Taken(nbrs, color[s := c], shown, s, c)
    ensures Taken(nbrs, color[s := c], Minus(shown, Group(color, root, root[nb])), s, c)
  {
    var placed := color[s := c];
    var group := Group(color, root, root[nb]);
    NothingLeft(nbrs, color, root, counted, left, s, nb, visited);
    FoeBreathesIff(nbrs, color, s, c, nb);
    TakenBreathes(nbrs, placed, shown, s, c, nb);
    forall q: nat | q < |shown| ensures q in group <==> Connected(nbrs, shown, nb, q) {
      ShownGroup(nbrs, color, root, s, c, shown, nb, q);
    }
    hide Taken, Breathes, Joined, Whole, Full, Left, Of, OtherLedge, Group;
    var shown' := Minus(shown, group);
    MinusAt(shown, group);
    assert forall q: nat :: q < |shown| ==> shown'[q] == if Connected(nbrs, shown, nb, q) then EMPTY else shown[q];
    TakeGroup(nbrs, placed, shown, shown', s, c, nb);
  }

  lemma ShownGroup(nbrs: Adjacency, color: Colors, root: seq<nat>, s: nat, c: nat, shown: Colors, p: nat, q: nat)
    requires Graph(nbrs) && Whole(nbrs, color, root) && Joined(nbrs, color, root, 0, {})
    requires (c == WHITE || c == BLACK) && IsEmpty(color, s) && Taken(nbrs, color[s := c], shown, s, c)
    requires Stone(color, p) && color[p] != c && Stone(shown, p) && q < |color|
    ensures q in Group(color, root, root[p]) <==> Connected(nbrs, shown, p, q)
  {
    var placed := color[s := c];
    GroupIsConnected(nbrs, color, root, 0, {}, p, q);
    hide Joined, Whole, Group, Graph;
    if Connected(nbrs, color, p, q) {
      MoreStones(nbrs, color, placed, p, q);
      TakenWhole(nbrs, placed, shown, s, c, p, q);
    }
    if Connected(nbrs, shown, p, q) {
      TakenFewer(nbrs, placed, shown, s, c, p, q);
      MoreStones(nbrs, placed, color, p, q);
    }
  }

  /** With every neighbour looked at, the hash shows the position after the move. */
  lemma ShownIsPlayed(nbrs: Adjacency, color: Colors, root: seq<nat>, stamp: seq<nat>, temp: seq<int>, now: nat, c: nat,
    t: Tally, counted: Pairs, left: Pairs, s: nat, stamps: seq<nat>, shown: Colors)
    requires Graph(nbrs) && Position(nbrs, color) && Whole(nbrs, color, root) && Joined(nbrs, color, root, 0, {})
    requires (c == WHITE || c == BLACK) && IsEmpty(color, s)
    requires Full(nbrs, color, counted) && s < |nbrs| && Left(counted, left, s, Around(nbrs, s))
    requires Tallied(color, root, stamp, temp, now, c, t, left) && Met(color, root, t, Around(nbrs, s))
    requires Taken(nbrs, color[s := c], shown, s, c) && ShownAs(color, root, stamps, now, t.weakFoes, shown)
    ensures shown == Played(nbrs, color, s, c)
  {
    hide Tallied, Met, Left, Full, Whole, Joined, Played, Breathes, OtherLedge;
    forall q: nat | Near(nbrs, s, q) && Stone(shown, q) && shown[q] == Opponent(c) ensures Breathes(nbrs, shown, q) {
      ShownBreathes(nbrs, color, root, stamp, temp, now, c, t, counted, left, s, stamps, shown, q);
    }
    TakenAll(nbrs, color, shown, s, c);
  }

  lemma ShownBreathes(nbrs: Adjacency, color: Colors, root: seq<nat>, stamp: seq<nat>, temp: seq<int>, now: nat, c: nat,
    t: Tally, counted: Pairs, left: Pairs, s: nat, stamps: seq<nat>, shown: Colors, q: nat)
    requires Graph(nbrs) && Position(nbrs, color) && Whole(nbrs, color, root) && Joined(nbrs, color, root, 0, {})
    requires (c == WHITE || c == BLACK) && IsEmpty(color, s)
    requires Full(nbrs, color, counted) && s < |nbrs| && Left(counted, left, s, Around(nbrs, s))
    requires Tallied(color, root, stamp, temp, now, c, t, left) && Met(color, root, t, Around(nbrs, s))
    requires Taken(nbrs, color[s := c], shown, s, c) && ShownAs(color, root, stamps, now, t.weakFoes, shown)
    requires Near(nbrs, s, q) && Stone(shown, q) && shown[q] == Opponent(c)
    ensures Breathes(nbrs, shown, q)
  {
    hide Tallied, Met, Left, Full, Whole, Joined, Breathes, OtherLedge, Captured;
    TakenOnlyOpponents(nbrs, color[s := c], shown, s, c, q);
    WeakStrong(nbrs, color, root, stamp, temp, now, c, t, counted, left, s, q);
    FoeBreathesIff(nbrs, color, s, c, q);
    TakenBreathes(nbrs, color[s := c], shown, s, c, q);
  }
}
