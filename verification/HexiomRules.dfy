/**
  The puzzle that own/hexiom2.py solves, and the counting arguments behind its constraint
  propagation. A cell has a list of candidate values; a solution picks one from every list.
 */
module HexiomRules {

  import opened Sorting

  const EMPTY: nat := 7

  type Cells = seq<seq<nat>>
  type Links = seq<seq<nat>>
  type Values = seq<nat>

  /** Every cell has at most six neighbours, each listed once. */
  ghost predicate IsHex(links: Links) {
    forall i :: 0 <= i < |links| ==>
      && |links[i]| <= 6 && Distinct(links[i])
      && forall k :: 0 <= k < |links[i]| ==> links[i][k] < |links|
  }

  predicate IsTiles(tiles: seq<nat>) {
    |tiles| == 8
  }

  /** Candidate lists hold values 0 to 6 or EMPTY, each at most once. */
  ghost predicate IsBoard(links: Links, cells: Cells) {
    && |cells| == |links|
    && forall i :: 0 <= i < |cells| ==> Distinct(cells[i]) && forall k :: 0 <= k < |cells[i]| ==> cells[i][k] <= EMPTY
  }

  // ---------------------------------------------------------------------
  // Solutions
  // ---------------------------------------------------------------------

  /** How many of the first `n` cells have the value `v`. */
  function Uses(a: Values, v: nat, n: nat): nat
    requires n <= |a|
  {
    if n == 0 then 0 else Uses(a, v, n - 1) + (if a[n - 1] == v then 1 else 0)
  }

  /** How many of the cells `ids[..n]` are not EMPTY. */
  function Filled(a: Values, ids: seq<nat>, n: nat): nat
    requires n <= |ids| && forall k :: 0 <= k < |ids| ==> ids[k] < |a|
  {
    if n == 0 then 0 else Filled(a, ids, n - 1) + (if a[ids[n - 1]] != EMPTY then 1 else 0)
  }

  predicate Picks(cells: Cells, a: Values) {
    && |a| == |cells|
    && forall i :: 0 <= i < |a| ==> a[i] in cells[i]
  }

  /** The number on a cell is the number of its neighbours with a tile. */
  predicate Satisfied(links: Links, a: Values, i: nat)
    requires IsHex(links) && |a| == |links| && i < |links|
  {
    a[i] == EMPTY || a[i] == Filled(a, links[i], |links[i]|)
  }

  /** A choice from the candidates that uses exactly the tiles and satisfies every cell. */
  ghost predicate Solution(links: Links, tiles: seq<nat>, cells: Cells, a: Values)
    requires IsHex(links) && IsTiles(tiles)
  {
    && |cells| == |links| && Picks(cells, a)
    && (forall v: nat :: v <= EMPTY ==> Uses(a, v, |a|) == tiles[v])
    && (forall i :: 0 <= i < |a| ==> Satisfied(links, a, i))
  }

  // ---------------------------------------------------------------------
  // Narrowing
  // ---------------------------------------------------------------------

  /** All candidates of the first `n` cells together. */
  function Total(cells: Cells, n: nat): nat
    requires n <= |cells|
  {
    if n == 0 then 0 else Total(cells, n - 1) + |cells[n - 1]|
  }

  predicate Within(cells': Cells, cells: Cells) {
    && |cells'| == |cells|
    && forall i :: 0 <= i < |cells'| ==> forall k :: 0 <= k < |cells'[i]| ==> cells'[i][k] in cells[i]
  }

  /** `cells'` has fewer candidates than `cells`, or the same if nothing changed, and the same solutions. */
  ghost predicate Narrows(links: Links, tiles: seq<nat>, cells: Cells, cells': Cells, changed: bool)
    requires IsHex(links) && IsTiles(tiles)
  {
    && IsBoard(links, cells') && Within(cells', cells)
    && (forall a: Values :: Solution(links, tiles, cells, a) <==> Solution(links, tiles, cells', a))
    && (if changed then Total(cells', |cells'|) < Total(cells, |cells|) else cells' == cells)
  }

  lemma NarrowsSame(links: Links, tiles: seq<nat>, cells: Cells)
    requires IsHex(links) && IsTiles(tiles) && IsBoard(links, cells)
    ensures Narrows(links, tiles, cells, cells, false)
  {}

  lemma NarrowsTwice(links: Links, tiles: seq<nat>, c: Cells, c1: Cells, c2: Cells, changed1: bool, changed2: bool)
    requires IsHex(links) && IsTiles(tiles)
    requires Narrows(links, tiles, c, c1, changed1) && Narrows(links, tiles, c1, c2, changed2)
    ensures Narrows(links, tiles, c, c2, changed1 || changed2)
  {
    hide Solution;
  }

  lemma {:induction false} TotalReplaced(cells: Cells, i: nat, s: seq<nat>, n: nat)
    requires i < |cells| && n <= |cells|
    ensures Total(cells[i := s], n) == Total(cells, n) + (if i < n then |s| - |cells[i]| else 0)
  {
    if n > 0 {
      TotalReplaced(cells, i, s, n - 1);
    }
  }

  /** Replacing one list by a shorter one that no solution leaves. */
  lemma NarrowsOne(links: Links, tiles: seq<nat>, cells: Cells, i: nat, s: seq<nat>)
    requires IsHex(links) && IsTiles(tiles) && IsBoard(links, cells) && i < |cells|
    requires Distinct(s) && |s| < |cells[i]| && forall k :: 0 <= k < |s| ==> s[k] in cells[i]
    requires forall a: Values :: Solution(links, tiles, cells, a) ==> a[i] in s
    ensures Narrows(links, tiles, cells, cells[i := s], true)
  {
    var cells' := cells[i := s];
    TotalReplaced(cells, i, s, |cells|);
    forall a: Values ensures Solution(links, tiles, cells, a) <==> Solution(links, tiles, cells', a) {
      if Solution(links, tiles, cells, a) {
        assert Picks(cells', a);
      }
      if Solution(links, tiles, cells', a) {
        PicksMore(cells', cells, a);
      }
    }
  }

  lemma PicksMore(cells': Cells, cells: Cells, a: Values)
    requires Within(cells', cells) && Picks(cells', a)
    ensures Picks(cells, a)
  {
    forall i | 0 <= i < |a| ensures a[i] in cells[i] {
      var v := a[i];
      assert v in cells'[i];
    }
  }

  /** The list without the value `v`. */
  function Without(s: seq<nat>, v: nat): (r: seq<nat>)
  {
    if s == [] then [] else if s[0] == v then s[1..] else [s[0]] + Without(s[1..], v)
  }

  lemma {:induction false} WithoutIs(s: seq<nat>, v: nat)
    requires Distinct(s)
    ensures Distinct(Without(s, v)) && v !in Without(s, v)
    ensures forall x :: x in Without(s, v) <==> x in s && x != v
    ensures |Without(s, v)| == if v in s then |s| - 1 else |s|
  {
    if s != [] {
      WithoutIs(s[1..], v);
      assert s == [s[0]] + s[1..];
      assert s[0] !in s[1..];
    }
  }

  // ---------------------------------------------------------------------
  // Neighbours that are decided, or not
  // ---------------------------------------------------------------------

  predicate Decided(cells: Cells, i: nat) {
    i < |cells| && |cells[i]| == 1
  }

  predicate Inside(ids: seq<nat>, n: nat) {
    forall k :: 0 <= k < |ids| ==> ids[k] < n
  }

  /** Decided neighbours with a tile. */
  function DecidedFilled(cells: Cells, ids: seq<nat>, n: nat): nat
    requires n <= |ids| && Inside(ids, |cells|)
  {
    if n == 0 then 0 else
      DecidedFilled(cells, ids, n - 1)
      + (if Decided(cells, ids[n - 1]) && cells[ids[n - 1]][0] != EMPTY then 1 else 0)
  }

  function Undecided(cells: Cells, ids: seq<nat>, n: nat): nat
    requires n <= |ids| && Inside(ids, |cells|)
  {
    if n == 0 then 0 else Undecided(cells, ids, n - 1) + (if Decided(cells, ids[n - 1]) then 0 else 1)
  }

  lemma DecidedValue(cells: Cells, a: Values, i: nat)
    requires Picks(cells, a) && Decided(cells, i)
    ensures a[i] == cells[i][0]
  {}

  /** However the undecided cells are filled, the number of filled ones stays in these bounds. */
  lemma {:induction false} FilledBounds(cells: Cells, a: Values, ids: seq<nat>, n: nat)
    requires Picks(cells, a) && n <= |ids| && Inside(ids, |cells|)
    ensures DecidedFilled(cells, ids, n) <= Filled(a, ids, n) <= DecidedFilled(cells, ids, n) + Undecided(cells, ids, n)
  {
    if n > 0 {
      FilledBounds(cells, a, ids, n - 1);
      if Decided(cells, ids[n - 1]) {
        DecidedValue(cells, a, ids[n - 1]);
      }
    }
  }

  /** At the lower bound every undecided cell is EMPTY. */
  lemma {:induction false} FilledLow(cells: Cells, a: Values, ids: seq<nat>, n: nat, k: nat)
    requires Picks(cells, a) && n <= |ids| && Inside(ids, |cells|)
    requires Filled(a, ids, n) == DecidedFilled(cells, ids, n)
    requires k < n && !Decided(cells, ids[k])
    ensures a[ids[k]] == EMPTY
  {
    FilledBounds(cells, a, ids, n - 1);
    if Decided(cells, ids[n - 1]) {
      DecidedValue(cells, a, ids[n - 1]);
    }
    if k < n - 1 {
      FilledLow(cells, a, ids, n - 1, k);
    }
  }

  /** At the upper bound none is. */
  lemma {:induction false} FilledHigh(cells: Cells, a: Values, ids: seq<nat>, n: nat, k: nat)
    requires Picks(cells, a) && n <= |ids| && Inside(ids, |cells|)
    requires Filled(a, ids, n) == DecidedFilled(cells, ids, n) + Undecided(cells, ids, n)
    requires k < n && !Decided(cells, ids[k])
    ensures a[ids[k]] != EMPTY
  {
    FilledBounds(cells, a, ids, n - 1);
    if Decided(cells, ids[n - 1]) {
      DecidedValue(cells, a, ids[n - 1]);
    }
    if k < n - 1 {
      FilledHigh(cells, a, ids, n - 1, k);
    }
  }

  lemma {:induction false} CountsFit(cells: Cells, ids: seq<nat>, n: nat)
    requires n <= |ids| && Inside(ids, |cells|)
    ensures DecidedFilled(cells, ids, n) + Undecided(cells, ids, n) <= n
  {
    if n > 0 {
      CountsFit(cells, ids, n - 1);
    }
  }

  // ---------------------------------------------------------------------
  // Tiles that are decided, or possible
  // ---------------------------------------------------------------------

  function DecidedAs(cells: Cells, v: nat, n: nat): nat
    requires n <= |cells|
  {
    if n == 0 then 0 else DecidedAs(cells, v, n - 1) + (if cells[n - 1] == [v] then 1 else 0)
  }

  function Possible(cells: Cells, v: nat, n: nat): nat
    requires n <= |cells|
  {
    if n == 0 then 0 else Possible(cells, v, n - 1) + (if v in cells[n - 1] then 1 else 0)
  }

  lemma {:induction false} UsesBounds(cells: Cells, a: Values, v: nat, n: nat)
    requires Picks(cells, a) && n <= |cells|
    ensures DecidedAs(cells, v, n) <= Uses(a, v, n) <= Possible(cells, v, n)
  {
    if n > 0 {
      UsesBounds(cells, a, v, n - 1);
      var x := a[n - 1];
      assert x in cells[n - 1];
    }
  }

  /** When the decided cells use up the tiles, no other cell has the value. */
  lemma {:induction false} UsesLow(cells: Cells, a: Values, v: nat, n: nat, i: nat)
    requires Picks(cells, a) && n <= |cells| && Uses(a, v, n) == DecidedAs(cells, v, n)
    requires i < n && cells[i] != [v]
    ensures a[i] != v
  {
    UsesBounds(cells, a, v, n - 1);
    var x := a[n - 1];
    assert x in cells[n - 1];
    if i < n - 1 {
      UsesLow(cells, a, v, n - 1, i);
    }
  }

  /** When there are just enough possible cells, each of them has the value. */
  lemma {:induction false} UsesHigh(cells: Cells, a: Values, v: nat, n: nat, i: nat)
    requires Picks(cells, a) && n <= |cells| && Uses(a, v, n) == Possible(cells, v, n)
    requires i < n && v in cells[i]
    ensures a[i] == v
  {
    UsesBounds(cells, a, v, n - 1);
    var x := a[n - 1];
    assert x in cells[n - 1];
    if i < n - 1 {
      UsesHigh(cells, a, v, n - 1, i);
    }
  }

  // ---------------------------------------------------------------------
  // Consequences for solutions
  // ---------------------------------------------------------------------

  lemma LinksInside(links: Links, i: nat)
    requires IsHex(links) && i < |links|
    ensures Inside(links[i], |links|) && |links[i]| <= 6 && Distinct(links[i])
  {}

  /** A number outside the bounds is in no solution. */
  lemma OutOfBounds(links: Links, tiles: seq<nat>, cells: Cells, i: nat, num: nat, a: Values)
    requires IsHex(links) && IsTiles(tiles) && |cells| == |links| && i < |links| && Inside(links[i], |cells|)
    requires var low := DecidedFilled(cells, links[i], |links[i]|);
      num != EMPTY && (num < low || num > low + Undecided(cells, links[i], |links[i]|))
    requires Solution(links, tiles, cells, a)
    ensures a[i] != num
  {
    FilledBounds(cells, a, links[i], |links[i]|);
    assert Satisfied(links, a, i);
  }

  /** A decided cell that has all its tiles around it: the undecided neighbours are EMPTY. */
  lemma AllFound(links: Links, tiles: seq<nat>, cells: Cells, i: nat, k: nat, a: Values)
    requires IsHex(links) && IsTiles(tiles) && |cells| == |links| && i < |links| && Inside(links[i], |cells|)
    requires Decided(cells, i) && cells[i][0] == DecidedFilled(cells, links[i], |links[i]|)
    requires k < |links[i]| && !Decided(cells, links[i][k]) && Solution(links, tiles, cells, a)
    ensures a[links[i][k]] == EMPTY
  {
    CountsFit(cells, links[i], |links[i]|);
    DecidedValue(cells, a, i);
    assert Satisfied(links, a, i);
    FilledLow(cells, a, links[i], |links[i]|, k);
  }

  /** A decided cell that needs all its undecided neighbours. */
  lemma AllNeeded(links: Links, tiles: seq<nat>, cells: Cells, i: nat, k: nat, a: Values)
    requires IsHex(links) && IsTiles(tiles) && |cells| == |links| && i < |links| && Inside(links[i], |cells|)
    requires Decided(cells, i)
    requires cells[i][0] == DecidedFilled(cells, links[i], |links[i]|) + Undecided(cells, links[i], |links[i]|)
    requires k < |links[i]| && !Decided(cells, links[i][k]) && Solution(links, tiles, cells, a)
    ensures a[links[i][k]] != EMPTY
  {
    CountsFit(cells, links[i], |links[i]|);
    DecidedValue(cells, a, i);
    assert Satisfied(links, a, i);
    FilledHigh(cells, a, links[i], |links[i]|, k);
  }
}
