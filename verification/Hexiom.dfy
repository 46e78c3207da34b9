/**
  The solver of own/hexiom2.py: constraint propagation on lists of candidates that are
  changed in place, and a search over clones.
 */
module Hexiom {

  import opened Options
  import opened Sorting
  import opened HexiomRules

  /** Which cell is tried next. */
  datatype Strategy = HighestValue | MinChoice | MaxChoice | First | MaxNeighbors | MinNeighbors

  datatype Order = Ascending | Descending

  /** `Raised` stands for the exception when the maximum of an empty list is taken. */
  datatype Status = Open | Solved | Impossible | Raised

  class Done {
    var cells: Cells

    constructor (cells: Cells)
      ensures this.cells == cells
    {
      this.cells := cells;
    }

    method Clone() returns (copy: Done)
      ensures fresh(copy) && copy.cells == cells
    {
      copy := new Done(cells);
    }

    method SetDone(i: nat, v: nat)
      requires i < |cells|
      modifies this
      ensures cells == old(cells)[i := [v]]
    {
      cells := cells[i := [v]];
    }

    predicate AlreadyDone(i: nat)
      requires i < |cells|
      reads this
    {
      |cells[i]| == 1
    }

    method Remove(i: nat, v: nat) returns (changed: bool)
      requires i < |cells|
      modifies this
      ensures changed == (v in old(cells[i]))
      ensures cells == if changed then old(cells)[i := Without(old(cells[i]), v)] else old(cells)
    {
      changed := v in cells[i];
      if changed {
        cells := cells[i := Without(cells[i], v)];
      }
    }

    // Removals and decisions that no solution contradicts.

    method Exclude(i: nat, v: nat, ghost links: Links, ghost tiles: seq<nat>) returns (changed: bool)
      requires IsHex(links) && IsTiles(tiles) && IsBoard(links, cells) && i < |cells|
      requires forall a: Values :: Solution(links, tiles, cells, a) ==> a[i] != v
      modifies this
      ensures Narrows(links, tiles, old(cells), cells, changed)
      ensures changed <==> v in old(cells)[i]
      ensures |cells| == |old(cells)| && forall j :: 0 <= j < |cells| && j != i ==> cells[j] == old(cells[j])
    {
      WithoutIs(cells[i], v);
      NarrowsSame(links, tiles, cells);
      if v in cells[i] {
        SolutionWithout(links, tiles, cells, i, v);
        NarrowsOne(links, tiles, cells, i, Without(cells[i], v));
      }
      hide Solution;
      changed := Remove(i, v);
    }

    method Decide(i: nat, v: nat, ghost links: Links, ghost tiles: seq<nat>)
      requires IsHex(links) && IsTiles(tiles) && IsBoard(links, cells) && i < |cells|
      requires |cells[i]| != 1 && v in cells[i]
      requires forall a: Values :: Solution(links, tiles, cells, a) ==> a[i] == v
      modifies this
      ensures Narrows(links, tiles, old(cells), cells, true)
      ensures cells == old(cells)[i := [v]]
    {
      NarrowsOne(links, tiles, cells, i, [v]);
      SetDone(i, v);
    }
  }

  lemma SolutionWithout(links: Links, tiles: seq<nat>, cells: Cells, i: nat, v: nat)
    requires IsHex(links) && IsTiles(tiles) && IsBoard(links, cells) && i < |cells|
    requires forall a: Values :: Solution(links, tiles, cells, a) ==> a[i] != v
    ensures forall a: Values :: Solution(links, tiles, cells, a) ==> a[i] in Without(cells[i], v)
  {
    WithoutIs(cells[i], v);
    forall a: Values | Solution(links, tiles, cells, a) ensures a[i] in Without(cells[i], v) {
      var x := a[i];
      assert x in cells[i];
    }
  }

  // ---------------------------------------------------------------------
  // Constraint propagation
  // ---------------------------------------------------------------------

  /** How many neighbours are decided and filled, and how many could be filled. */
  method Bounds(done: Done, ids: seq<nat>) returns (vmin: nat, vmax: nat)
    requires Inside(ids, |done.cells|)
    ensures vmin == DecidedFilled(done.cells, ids, |ids|)
    ensures vmax == vmin + Undecided(done.cells, ids, |ids|)
  {
    vmin, vmax := 0, 0;
    for k := 0 to |ids|
      invariant vmin == DecidedFilled(done.cells, ids, k)
      invariant vmax == vmin + Undecided(done.cells, ids, k)
    {
      if done.AlreadyDone(ids[k]) {
        if done.cells[ids[k]][0] != EMPTY {
          vmin := vmin + 1;
          vmax := vmax + 1;
        }
      } else {
        vmax := vmax + 1;
      }
    }
  }

  /** An undecided cell lists no number that its neighbours rule out. */
  ghost predicate BoundedAt(links: Links, cells: Cells, i: nat)
    requires IsHex(links) && |cells| == |links| && i < |links|
  {
    LinksInside(links, i);
    var low := DecidedFilled(cells, links[i], |links[i]|);
    !Decided(cells, i) ==> forall num: nat :: num in cells[i] && num < EMPTY ==>
      low <= num <= low + Undecided(cells, links[i], |links[i]|)
  }

  /** Removes the numbers that cannot stand on a free cell. */
  method BoundCell(done: Done, links: Links, ghost tiles: seq<nat>, i: nat) returns (changed: bool)
    requires IsHex(links) && IsTiles(tiles) && IsBoard(links, done.cells) && i < |links|
    modifies done
    ensures Narrows(links, tiles, old(done.cells), done.cells, changed)
    ensures !changed ==> BoundedAt(links, done.cells, i)
  {
    hide Solution;
    ghost var before := done.cells;
    NarrowsSame(links, tiles, before);
    changed := false;
    if !done.AlreadyDone(i) {
      LinksInside(links, i);
      var vmin, vmax := Bounds(done, links[i]);
      for num := 0 to 7
        invariant Narrows(links, tiles, before, done.cells, changed)
        invariant !changed ==> forall n: nat :: n < num && (n < vmin || n > vmax) ==> n !in before[i]
      {
        if num < vmin || num > vmax {
          forall a: Values | Solution(links, tiles, done.cells, a) ensures i < |a| && a[i] != num {
            assert Solution(links, tiles, before, a);
            SolutionSize(links, tiles, before, a);
            OutOfBounds(links, tiles, before, i, num, a);
          }
          ghost var middle := done.cells;
          var more := done.Exclude(i, num, links, tiles);
          NarrowsTwice(links, tiles, before, middle, done.cells, changed, more);
          changed := changed || more;
        }
      }
    }
  }

  method BoundCells(done: Done, links: Links, ghost tiles: seq<nat>, free: seq<nat>) returns (changed: bool)
    requires IsHex(links) && IsTiles(tiles) && IsBoard(links, done.cells) && Inside(free, |links|)
    modifies done
    ensures Narrows(links, tiles, old(done.cells), done.cells, changed)
    ensures !changed ==> forall k :: 0 <= k < |free| ==> BoundedAt(links, done.cells, free[k])
  {
    hide Solution, BoundedAt;
    NarrowsSame(links, tiles, done.cells);
    changed := false;
    for k := 0 to |free|
      invariant Narrows(links, tiles, old(done.cells), done.cells, changed)
      invariant !changed ==> forall j :: 0 <= j < k ==> BoundedAt(links, done.cells, free[j])
    {
      ghost var middle := done.cells;
      var more := BoundCell(done, links, tiles, free[k]);
      NarrowsTwice(links, tiles, old(done.cells), middle, done.cells, changed, more);
      changed := changed || more;
    }
  }

  /** The tiles that are not on decided cells. */
  method TilesLeft(done: Done, tiles: seq<nat>) returns (left: seq<int>)
    requires IsTiles(tiles) && forall i :: 0 <= i < |done.cells| && |done.cells[i]| == 1 ==> done.cells[i][0] <= EMPTY
    ensures |left| == 8 && forall v: nat :: v < 8 ==> left[v] == tiles[v] - DecidedAs(done.cells, v, |done.cells|)
  {
    left := tiles;
    for i := 0 to |done.cells|
      invariant |left| == 8 && forall v: nat :: v < 8 ==> left[v] == tiles[v] - DecidedAs(done.cells, v, i)
    {
      if |done.cells[i]| == 1 {
        var x := done.cells[i][0];
        left := left[x := left[x] - 1];
        assert forall v :: done.cells[i] == [v] <==> v == x;
      }
    }
  }

  /** Cells that are decided in `cells` are the same in `cells'`. */
  predicate Kept(cells: Cells, cells': Cells) {
    && |cells| == |cells'|
    && forall i :: 0 <= i < |cells| && |cells[i]| == 1 ==> cells'[i] == cells[i]
  }

  /** No undecided cell lists `v`. */
  ghost predicate OnlyDecided(cells: Cells, v: nat) {
    forall i :: 0 <= i < |cells| && |cells[i]| != 1 ==> v !in cells[i]
  }

  /** Every tile `v` is on a cell that was decided in `start`; no other cell can have the value. */
  method RemoveUnfixed(done: Done, ghost links: Links, ghost tiles: seq<nat>, v: nat, ghost start: Cells)
    returns (changed: bool)
    requires IsHex(links) && IsTiles(tiles) && IsBoard(links, done.cells)
    requires v <= EMPTY && |start| == |links| && tiles[v] == DecidedAs(start, v, |start|)
    requires Kept(start, done.cells)
    requires forall a: Values :: Solution(links, tiles, done.cells, a) ==> Solution(links, tiles, start, a)
    modifies done
    ensures Narrows(links, tiles, old(done.cells), done.cells, changed) && Kept(start, done.cells)
    ensures !changed ==> OnlyDecided(done.cells, v)
  {
    hide Solution;
    ghost var before := done.cells;
    NarrowsSame(links, tiles, before);
    changed := false;
    for i := 0 to |done.cells|
      invariant Narrows(links, tiles, before, done.cells, changed) && Kept(start, done.cells)
      invariant !changed ==> forall j :: 0 <= j < i && |before[j]| != 1 ==> v !in before[j]
    {
      if !done.AlreadyDone(i) {
        forall a: Values | Solution(links, tiles, done.cells, a) ensures i < |a| && a[i] != v {
          assert Solution(links, tiles, before, a);
          assert Solution(links, tiles, start, a);
          TileUsedUp(links, tiles, start, v, i, a);
        }
        ghost var middle := done.cells;
        var more := done.Exclude(i, v, links, tiles);
        NarrowsTwice(links, tiles, before, middle, done.cells, changed, more);
        changed := changed || more;
      }
    }
  }

  lemma {:induction false} TileUsedUp(links: Links, tiles: seq<nat>, start: Cells, v: nat, i: nat, a: Values)
    requires IsHex(links) && IsTiles(tiles) && Solution(links, tiles, start, a)
    requires v <= EMPTY && i < |start| && tiles[v] == DecidedAs(start, v, |start|) && |start[i]| != 1
    ensures i < |a| && a[i] != v
  {
    UsesLow(start, a, v, |start|, i);
  }

  lemma {:induction false} TileNeeded(links: Links, tiles: seq<nat>, start: Cells, v: nat, i: nat, a: Values)
    requires IsHex(links) && IsTiles(tiles) && Solution(links, tiles, start, a)
    requires v <= EMPTY && i < |start| && tiles[v] == Possible(start, v, |start|) && v in start[i]
    ensures i < |a| && a[i] == v
  {
    UsesHigh(start, a, v, |start|, i);
  }

  /** There are just enough cells for the tiles `v`. */
  method FixPossible(done: Done, ghost links: Links, ghost tiles: seq<nat>, v: nat, ghost start: Cells)
    returns (changed: bool)
    requires IsHex(links) && IsTiles(tiles) && IsBoard(links, done.cells)
    requires v <= EMPTY && tiles[v] == Possible(done.cells, v, |done.cells|)
    requires Kept(start, done.cells)
    modifies done
    ensures Narrows(links, tiles, old(done.cells), done.cells, changed) && Kept(start, done.cells)
    ensures !changed ==> OnlyDecided(done.cells, v)
  {
    hide Solution;
    ghost var before := done.cells;
    NarrowsSame(links, tiles, before);
    changed := false;
    for i := 0 to |done.cells|
      invariant Narrows(links, tiles, before, done.cells, changed) && Kept(start, done.cells)
      invariant !changed ==> forall j :: 0 <= j < i && |before[j]| != 1 ==> v !in before[j]
    {
      if !done.AlreadyDone(i) && v in done.cells[i] {
        WithinAt(done.cells, before, i, v);
        forall a: Values | Solution(links, tiles, done.cells, a) ensures i < |a| && a[i] == v {
          assert Solution(links, tiles, before, a);
          TileNeeded(links, tiles, before, v, i, a);
        }
        ghost var middle := done.cells;
        done.Decide(i, v, links, tiles);
        NarrowsTwice(links, tiles, before, middle, done.cells, changed, true);
        changed := true;
      }
    }
  }

  lemma WithinAt(cells': Cells, cells: Cells, i: nat, v: nat)
    requires Within(cells', cells) && i < |cells'| && v in cells'[i]
    ensures v in cells[i]
  {
    var k :| 0 <= k < |cells'[i]| && cells'[i][k] == v;
    assert cells'[i][k] in cells[i];
  }

  lemma SolutionSize(links: Links, tiles: seq<nat>, cells: Cells, a: Values)
    requires IsHex(links) && IsTiles(tiles) && Solution(links, tiles, cells, a)
    ensures |a| == |links| == |cells|
  {}

  /** A value whose tiles are all laid, or have just enough cells left, is listed by no undecided cell. */
  ghost predicate TileAtRest(tiles: seq<nat>, cells: Cells, v: nat)
    requires IsTiles(tiles) && v < 8
  {
    (tiles[v] > 0 && tiles[v] == DecidedAs(cells, v, |cells|)) || tiles[v] == Possible(cells, v, |cells|) ==>
      OnlyDecided(cells, v)
  }

  method FixTiles(done: Done, ghost links: Links, tiles: seq<nat>) returns (changed: bool)
    requires IsHex(links) && IsTiles(tiles) && IsBoard(links, done.cells)
    modifies done
    ensures Narrows(links, tiles, old(done.cells), done.cells, changed)
    ensures !changed ==> forall v: nat :: v < 8 ==> TileAtRest(tiles, done.cells, v)
  {
    hide Solution, OnlyDecided;
    ghost var start := done.cells;
    var left := TilesLeft(done, tiles);
    NarrowsSame(links, tiles, start);
    changed := false;
    for v := 0 to 8
      invariant Narrows(links, tiles, start, done.cells, changed) && Kept(start, done.cells)
      invariant !changed ==> forall u: nat :: u < v ==> TileAtRest(tiles, start, u)
    {
      ghost var middle := done.cells;
      var more := false;
      if tiles[v] > 0 && left[v] == 0 {
        more := RemoveUnfixed(done, links, tiles, v, start);
      } else if tiles[v] == Possible(done.cells, v, |done.cells|) {
        more := FixPossible(done, links, tiles, v, start);
      } else {
        NarrowsSame(links, tiles, middle);
      }
      NarrowsTwice(links, tiles, start, middle, done.cells, changed, more);
      changed := changed || more;
    }
  }

  // ---------------------------------------------------------------------
  // Neighbours of decided cells
  // ---------------------------------------------------------------------

  /** The undecided neighbours of a cell, and how many decided ones are filled. */
  method Around(done: Done, ids: seq<nat>) returns (filled: nat, unknown: seq<nat>)
    requires Inside(ids, |done.cells|) && Distinct(ids)
    ensures filled == DecidedFilled(done.cells, ids, |ids|) && |unknown| == Undecided(done.cells, ids, |ids|)
    ensures Distinct(unknown)
    ensures forall j :: 0 <= j < |unknown| ==> unknown[j] in ids && !Decided(done.cells, unknown[j])
    ensures forall u :: u in ids && !Decided(done.cells, u) ==> u in unknown
  {
    filled, unknown := 0, [];
    for k := 0 to |ids|
      invariant filled == DecidedFilled(done.cells, ids, k) && |unknown| == Undecided(done.cells, ids, k)
      invariant Distinct(unknown)
      invariant forall j :: 0 <= j < |unknown| ==> unknown[j] in ids[..k] && !Decided(done.cells, unknown[j])
      invariant forall j :: 0 <= j < k && !Decided(done.cells, ids[j]) ==> ids[j] in unknown
    {
      if done.AlreadyDone(ids[k]) {
        if done.cells[ids[k]][0] != EMPTY {
          filled := filled + 1;
        }
      } else {
        assert ids[k] !in ids[..k];
        unknown := unknown + [ids[k]];
      }
      assert ids[..k + 1] == ids[..k] + [ids[k]];
    }
  }

  /** All of `unknown` are EMPTY in every solution. */
  method EmptyOut(done: Done, ghost links: Links, ghost tiles: seq<nat>, unknown: seq<nat>) returns (changed: bool)
    requires IsHex(links) && IsTiles(tiles) && IsBoard(links, done.cells) && Distinct(unknown)
      && Inside(unknown, |links|)
    requires forall j :: 0 <= j < |unknown| ==> |done.cells[unknown[j]]| != 1
    requires forall a: Values, j :: Solution(links, tiles, done.cells, a) && 0 <= j < |unknown| ==>
      HasValue(a, unknown[j], EMPTY)
    modifies done
    ensures Narrows(links, tiles, old(done.cells), done.cells, changed)
    ensures !changed ==> forall u :: u in unknown ==> EMPTY !in done.cells[u]
  {
    hide Solution;
    ghost var before := done.cells;
    NarrowsSame(links, tiles, before);
    changed := false;
    for k := 0 to |unknown|
      invariant Narrows(links, tiles, before, done.cells, changed)
      invariant !changed ==> forall j :: 0 <= j < k ==> EMPTY !in before[unknown[j]]
      invariant forall j :: k <= j < |unknown| ==> done.cells[unknown[j]] == before[unknown[j]]
    {
      var u := unknown[k];
      if EMPTY in done.cells[u] {
        forall a: Values | Solution(links, tiles, done.cells, a) ensures u < |a| && a[u] == EMPTY {
          assert Solution(links, tiles, before, a);
          assert HasValue(a, unknown[k], EMPTY);
        }
        ghost var middle := done.cells;
        done.Decide(u, EMPTY, links, tiles);
        NarrowsTwice(links, tiles, before, middle, done.cells, changed, true);
        changed := true;
      }
    }
  }

  predicate HasValue(a: Values, i: nat, v: nat) {
    i < |a| && a[i] == v
  }

  /** None of `unknown` is EMPTY in a solution. */
  method FillUp(done: Done, ghost links: Links, ghost tiles: seq<nat>, unknown: seq<nat>) returns (changed: bool)
    requires IsHex(links) && IsTiles(tiles) && IsBoard(links, done.cells) && Inside(unknown, |links|)
    requires forall a: Values, j :: Solution(links, tiles, done.cells, a) && 0 <= j < |unknown| ==>
      !HasValue(a, unknown[j], EMPTY)
    modifies done
    ensures Narrows(links, tiles, old(done.cells), done.cells, changed)
    ensures !changed ==> forall u :: u in unknown ==> EMPTY !in done.cells[u]
  {
    hide Solution;
    ghost var before := done.cells;
    NarrowsSame(links, tiles, before);
    changed := false;
    for k := 0 to |unknown|
      invariant Narrows(links, tiles, before, done.cells, changed)
      invariant !changed ==> forall j :: 0 <= j < k ==> EMPTY !in before[unknown[j]]
    {
      var u := unknown[k];
      forall a: Values | Solution(links, tiles, done.cells, a) ensures u < |a| && a[u] != EMPTY {
        assert Solution(links, tiles, before, a);
        SolutionSize(links, tiles, before, a);
        assert !HasValue(a, unknown[k], EMPTY);
      }
      ghost var middle := done.cells;
      var more := done.Exclude(u, EMPTY, links, tiles);
      NarrowsTwice(links, tiles, before, middle, done.cells, changed, more);
      changed := changed || more;
    }
  }

  /** Around a decided cell with all its tiles, or in need of all undecided neighbours, none of these lists EMPTY. */
  ghost predicate ForcedAt(links: Links, cells: Cells, i: nat)
    requires IsHex(links) && |cells| == |links| && i < |links|
  {
    LinksInside(links, i);
    var filled, open := DecidedFilled(cells, links[i], |links[i]|), Undecided(cells, links[i], |links[i]|);
    Decided(cells, i) && (cells[i][0] == filled || cells[i][0] == filled + open) ==>
      forall u :: u in links[i] && !Decided(cells, u) ==> EMPTY !in cells[u]
  }

  method ForceAround(done: Done, links: Links, ghost tiles: seq<nat>, i: nat) returns (changed: bool)
    requires IsHex(links) && IsTiles(tiles) && IsBoard(links, done.cells) && i < |links|
    modifies done
    ensures Narrows(links, tiles, old(done.cells), done.cells, changed)
    ensures !changed ==> ForcedAt(links, done.cells, i)
  {
    hide Solution;
    NarrowsSame(links, tiles, done.cells);
    changed := false;
    if done.AlreadyDone(i) {
      LinksInside(links, i);
      var num := done.cells[i][0];
      var filled, unknown := Around(done, links[i]);
      if |unknown| > 0 {
        if num == filled {
          forall a: Values, j | Solution(links, tiles, done.cells, a) && 0 <= j < |unknown|
            ensures HasValue(a, unknown[j], EMPTY) {
            var k :| 0 <= k < |links[i]| && links[i][k] == unknown[j];
            SolutionSize(links, tiles, done.cells, a);
            AllFound(links, tiles, done.cells, i, k, a);
          }
          changed := EmptyOut(done, links, tiles, unknown);
        } else if num == filled + |unknown| {
          forall a: Values, j | Solution(links, tiles, done.cells, a) && 0 <= j < |unknown|
            ensures !HasValue(a, unknown[j], EMPTY) {
            var k :| 0 <= k < |links[i]| && links[i][k] == unknown[j];
            SolutionSize(links, tiles, done.cells, a);
            AllNeeded(links, tiles, done.cells, i, k, a);
          }
          changed := FillUp(done, links, tiles, unknown);
        }
      }
    }
  }

  method ForceCells(done: Done, links: Links, ghost tiles: seq<nat>, fixedCells: seq<nat>) returns (changed: bool)
    requires IsHex(links) && IsTiles(tiles) && IsBoard(links, done.cells) && Inside(fixedCells, |links|)
    modifies done
    ensures Narrows(links, tiles, old(done.cells), done.cells, changed)
    ensures !changed ==> forall k :: 0 <= k < |fixedCells| ==> ForcedAt(links, done.cells, fixedCells[k])
  {
    hide Solution, ForcedAt;
    NarrowsSame(links, tiles, done.cells);
    changed := false;
    for k := 0 to |fixedCells|
      invariant Narrows(links, tiles, old(done.cells), done.cells, changed)
      invariant !changed ==> forall j :: 0 <= j < k ==> ForcedAt(links, done.cells, fixedCells[j])
    {
      ghost var middle := done.cells;
      var more := ForceAround(done, links, tiles, fixedCells[k]);
      NarrowsTwice(links, tiles, old(done.cells), middle, done.cells, changed, more);
      changed := changed || more;
    }
  }

  /** The whole board, or the surroundings of the last move. */
  datatype Scope = Everywhere | After(cell: nat)

  function AllIds(n: nat): (r: seq<nat>)
    ensures |r| == n && forall i :: 0 <= i < n ==> r[i] == i
  {
    seq(n, i requires 0 <= i < n => i)
  }

  /** The cells whose lists a pass bounds, and those whose surroundings it forces. */
  predicate IsFree(links: Links, scope: Scope, i: nat) {
    scope.Everywhere? || (scope.cell < |links| && i in links[scope.cell])
  }

  predicate IsForced(scope: Scope, i: nat) {
    scope.Everywhere? || i == scope.cell
  }

  /** No rule of a pass has anything left to do. */
  ghost predicate AtRest(links: Links, tiles: seq<nat>, cells: Cells, scope: Scope)
    requires IsHex(links) && IsTiles(tiles) && |cells| == |links|
  {
    && (forall i: nat :: i < |links| && IsFree(links, scope, i) ==> BoundedAt(links, cells, i))
    && (forall v: nat :: v < 8 ==> TileAtRest(tiles, cells, v))
    && (forall i: nat :: i < |links| && IsForced(scope, i) ==> ForcedAt(links, cells, i))
  }

  /** A pass that changes nothing has left no rule unapplied. */
  method ConstraintPass(done: Done, links: Links, tiles: seq<nat>, scope: Scope) returns (changed: bool)
    requires IsHex(links) && IsTiles(tiles) && IsBoard(links, done.cells)
    requires scope.After? ==> scope.cell < |links|
    modifies done
    ensures Narrows(links, tiles, old(done.cells), done.cells, changed)
    ensures !changed ==> AtRest(links, tiles, done.cells, scope)
  {
    hide Solution, BoundedAt, TileAtRest, ForcedAt;
    ghost var start := done.cells;
    if scope.After? {
      LinksInside(links, scope.cell);
    }
    var free := if scope.Everywhere? then AllIds(|links|) else links[scope.cell];
    changed := BoundCells(done, links, tiles, free);
    ghost var c1 := done.cells;
    var more := FixTiles(done, links, tiles);
    NarrowsTwice(links, tiles, start, c1, done.cells, changed, more);
    changed := changed || more;
    ghost var c2 := done.cells;
    var fixedCells := if scope.Everywhere? then AllIds(|links|) else [scope.cell];
    more := ForceCells(done, links, tiles, fixedCells);
    NarrowsTwice(links, tiles, start, c2, done.cells, changed, more);
    changed := changed || more;
    if !changed {
      InScope(links, scope, free, fixedCells);
    }
  }

  lemma InScope(links: Links, scope: Scope, free: seq<nat>, fixedCells: seq<nat>)
    requires scope.After? ==> scope.cell < |links|
    requires free == if scope.Everywhere? then AllIds(|links|) else links[scope.cell]
    requires fixedCells == if scope.Everywhere? then AllIds(|links|) else [scope.cell]
    ensures forall i: nat :: i < |links| && IsFree(links, scope, i) ==> exists k :: 0 <= k < |free| && free[k] == i
    ensures forall i: nat :: i < |links| && IsForced(scope, i) ==>
      exists k :: 0 <= k < |fixedCells| && fixedCells[k] == i
  {
    forall i: nat | i < |links| && IsFree(links, scope, i) ensures exists k :: 0 <= k < |free| && free[k] == i {
      if scope.Everywhere? {
        assert free[i] == i;
      }
    }
    forall i: nat | i < |links| && IsForced(scope, i)
      ensures exists k :: 0 <= k < |fixedCells| && fixedCells[k] == i
    {
      assert fixedCells[if scope.Everywhere? then i else 0] == i;
    }
  }

  // ---------------------------------------------------------------------
  // Is it solved?
  // ---------------------------------------------------------------------

  /** The tiles used so far, subtracted one by one. */
  ghost predicate Remaining(tiles: seq<nat>, cells: Cells, n: nat, rest: seq<int>)
    requires IsTiles(tiles) && n <= |cells|
  {
    && |rest| == 8
    && forall v: nat :: v < 8 ==> rest[v] == tiles[v] - DecidedAs(cells, v, n) && rest[v] >= 0
  }

  /** A decided cell whose number is within its bounds. */
  predicate InBounds(links: Links, cells: Cells, i: nat)
    requires IsHex(links) && |cells| == |links| && i < |links| && Inside(links[i], |cells|) && |cells[i]| == 1
  {
    var low := DecidedFilled(cells, links[i], |links[i]|);
    cells[i][0] == EMPTY || low <= cells[i][0] <= low + Undecided(cells, links[i], |links[i]|)
  }

  method CheckSolved(done: Done, links: Links, tiles: seq<nat>) returns (status: Status, answer: Values)
    requires IsHex(links) && IsTiles(tiles) && IsBoard(links, done.cells) && Sum(tiles, 8) == |links|
    ensures status.Impossible? ==> forall a: Values :: !Solution(links, tiles, done.cells, a)
    ensures status.Solved? ==> Solution(links, tiles, done.cells, answer)
    ensures status.Solved? || status.Impossible? || exists i :: 0 <= i < |done.cells| && |done.cells[i]| != 1
    ensures status.Open? ==> forall i :: 0 <= i < |done.cells| ==> |done.cells[i]| != 0
    ensures !status.Raised?
  {
    hide Solution, DecidedFilled, Undecided;
    var cells := done.cells;
    var rest: seq<int> := tiles;
    var exact, allDone := true, true;
    answer := [];
    for i := 0 to |cells|
      invariant Remaining(tiles, cells, i, rest)
      invariant forall j :: 0 <= j < i ==> |cells[j]| != 0
      invariant allDone <==> forall j :: 0 <= j < i ==> |cells[j]| == 1
      invariant !exact ==> exists j :: 0 <= j < i && HasUndecided(links, cells, j)
      invariant forall j: nat :: j < i && |cells[j]| == 1 ==> InBoundsAt(links, cells, j)
    {
      LinksInside(links, i);
      if |cells[i]| == 0 {
        NoCandidate(links, tiles, cells, i);
        return Impossible, [];
      } else if done.AlreadyDone(i) {
        var num := cells[i][0];
        assert forall v :: cells[i] == [v] <==> v == num;
        rest := rest[num := rest[num] - 1];
        if rest[num] < 0 {
          TooMany(links, tiles, cells, num, i + 1);
          return Impossible, [];
        }
        if num != EMPTY {
          var vmin, vmax := Bounds(done, links[i]);
          if num < vmin || num > vmax {
            BadNumber(links, tiles, cells, i);
            return Impossible, [];
          }
          if num != vmin {
            exact := false;
            assert HasUndecided(links, cells, i);
          }
        }
      } else {
        allDone := false;
      }
    }
    if !allDone || !exact {
      if allDone {
        var j :| 0 <= j < |cells| && HasUndecided(links, cells, j);
        AllDecided(links, cells, j);
      }
      return Open, [];
    }
    answer := seq(|cells|, i requires 0 <= i < |cells| => cells[i][0]);
    AnswerIsSolution(links, tiles, cells, answer, rest);
    status := Solved;
  }

  predicate HasUndecided(links: Links, cells: Cells, i: nat)
    requires IsHex(links) && |cells| == |links|
  {
    i < |links| && Inside(links[i], |cells|) && Undecided(cells, links[i], |links[i]|) > 0
  }

  predicate InBoundsAt(links: Links, cells: Cells, i: nat)
    requires IsHex(links) && |cells| == |links|
  {
    i < |links| && Inside(links[i], |cells|) && |cells[i]| == 1 && InBounds(links, cells, i)
  }

  /** The first `n` entries added up. */
  function Sum(s: seq<nat>, n: nat): nat
    requires n <= |s|
  {
    if n == 0 then 0 else Sum(s, n - 1) + s[n - 1]
  }

  lemma NoCandidate(links: Links, tiles: seq<nat>, cells: Cells, i: nat)
    requires IsHex(links) && IsTiles(tiles) && i < |cells| && cells[i] == []
    ensures forall a: Values :: !Solution(links, tiles, cells, a)
  {}

  lemma {:induction false} DecidedMonotone(cells: Cells, v: nat, n: nat, m: nat)
    requires n <= m <= |cells|
    ensures DecidedAs(cells, v, n) <= DecidedAs(cells, v, m)
  {
    if n < m {
      DecidedMonotone(cells, v, n, m - 1);
    }
  }

  lemma {:induction false} TooMany(links: Links, tiles: seq<nat>, cells: Cells, v: nat, n: nat)
    requires IsHex(links) && IsTiles(tiles) && v <= EMPTY && n <= |cells| && DecidedAs(cells, v, n) > tiles[v]
    ensures forall a: Values :: !Solution(links, tiles, cells, a)
  {
    forall a: Values ensures !Solution(links, tiles, cells, a) {
      DecidedMonotone(cells, v, n, |cells|);
      if Picks(cells, a) {
        UsesBounds(cells, a, v, |cells|);
      }
    }
  }

  lemma BadNumber(links: Links, tiles: seq<nat>, cells: Cells, i: nat)
    requires IsHex(links) && IsTiles(tiles) && |cells| == |links| && i < |links| && Inside(links[i], |cells|)
    requires |cells[i]| == 1 && !InBounds(links, cells, i)
    ensures forall a: Values :: !Solution(links, tiles, cells, a)
  {
    forall a: Values ensures !Solution(links, tiles, cells, a) {
      if Picks(cells, a) {
        FilledBounds(cells, a, links[i], |links[i]|);
        DecidedValue(cells, a, i);
        assert !Satisfied(links, a, i);
      }
    }
  }

  lemma {:induction false} NoneUndecided(cells: Cells, ids: seq<nat>, n: nat)
    requires n <= |ids| && Inside(ids, |cells|) && forall i :: 0 <= i < |cells| ==> |cells[i]| == 1
    ensures Undecided(cells, ids, n) == 0
  {
    if n > 0 {
      NoneUndecided(cells, ids, n - 1);
    }
  }

  lemma AllDecided(links: Links, cells: Cells, i: nat)
    requires IsHex(links) && |cells| == |links| && forall j :: 0 <= j < |cells| ==> |cells[j]| == 1
    ensures !HasUndecided(links, cells, i)
  {
    if i < |links| {
      LinksInside(links, i);
      NoneUndecided(cells, links[i], |links[i]|);
    }
  }

  lemma {:induction false} DecidedUses(cells: Cells, a: Values, v: nat, n: nat)
    requires n <= |cells| == |a| && forall i :: 0 <= i < |cells| ==> cells[i] == [a[i]]
    ensures DecidedAs(cells, v, n) == Uses(a, v, n)
  {
    if n > 0 {
      DecidedUses(cells, a, v, n - 1);
    }
  }

  /** How often each value below `m` is used. */
  function UsesBelow(a: Values, n: nat, m: nat): nat
    requires n <= |a|
  {
    if m == 0 then 0 else UsesBelow(a, n, m - 1) + Uses(a, m - 1, n)
  }

  lemma {:induction false} UsesBelowMore(a: Values, n: nat, m: nat)
    requires n < |a|
    ensures UsesBelow(a, n + 1, m) == UsesBelow(a, n, m) + (if a[n] < m then 1 else 0)
  {
    if m > 0 {
      UsesBelowMore(a, n, m - 1);
    }
  }

  lemma {:induction false} UsesAll(a: Values, n: nat)
    requires n <= |a| && forall i :: 0 <= i < |a| ==> a[i] < 8
    ensures UsesBelow(a, n, 8) == n
  {
    if n > 0 {
      UsesAll(a, n - 1);
      UsesBelowMore(a, n - 1, 8);
    } else {
      NoUses(a, 8);
    }
  }

  lemma {:induction false} NoUses(a: Values, m: nat)
    ensures UsesBelow(a, 0, m) == 0
  {
    if m > 0 {
      NoUses(a, m - 1);
    }
  }

  /** No value is used more often than it has tiles; in all, just as often: so each exactly as often. */
  lemma {:induction false} UsesExact(a: Values, tiles: seq<nat>, m: nat)
    requires m <= |tiles| == 8 && (forall v: nat :: v < 8 ==> Uses(a, v, |a|) <= tiles[v])
    ensures UsesBelow(a, |a|, m) <= Sum(tiles, m)
    ensures UsesBelow(a, |a|, m) == Sum(tiles, m) ==> forall v: nat :: v < m ==> Uses(a, v, |a|) == tiles[v]
  {
    if m > 0 {
      UsesExact(a, tiles, m - 1);
    }
  }

  lemma AnswerIsSolution(links: Links, tiles: seq<nat>, cells: Cells, a: Values, rest: seq<int>)
    requires IsHex(links) && IsTiles(tiles) && IsBoard(links, cells) && Sum(tiles, 8) == |links|
    requires |a| == |cells| && forall i :: 0 <= i < |cells| ==> cells[i] == [a[i]]
    requires Remaining(tiles, cells, |cells|, rest)
    requires forall j: nat :: j < |cells| ==> InBoundsAt(links, cells, j)
    ensures Solution(links, tiles, cells, a)
  {
    forall i | 0 <= i < |a| ensures a[i] < 8 {
      assert cells[i][0] <= EMPTY;
    }
    forall v: nat | v < 8 ensures Uses(a, v, |a|) <= tiles[v] {
      DecidedUses(cells, a, v, |a|);
    }
    UsesAll(a, |a|);
    UsesExact(a, tiles, 8);
    forall i: nat | i < |a| ensures Satisfied(links, a, i) {
      assert InBoundsAt(links, cells, i);
      FilledBounds(cells, a, links[i], |links[i]|);
      NoneUndecided(cells, links[i], |links[i]|);
    }
  }

  // ---------------------------------------------------------------------
  // Choosing a cell
  // ---------------------------------------------------------------------

  /** `i` is a cell that is not decided; -1 means that no cell has two candidates or more. */
  predicate IsChoice(cells: Cells, i: int) {
    if i < 0 then forall j :: 0 <= j < |cells| ==> |cells[j]| <= 1 else i < |cells| && |cells[i]| != 1
  }

  lemma {:induction false} ShortLists(s: seq<nat>, n: nat)
    requires Distinct(s) && forall k :: 0 <= k < |s| ==> s[k] < n
    ensures |s| <= n
    decreases n
  {
    if s != [] {
      assert s[0] < n;
      WithoutIs(s, n - 1);
      var t := Without(s, n - 1);
      forall k | 0 <= k < |t| ensures t[k] < n - 1 {
        var x := t[k];
        assert x in t;
      }
      ShortLists(t, n - 1);
    }
  }

  /** The first cell of those with the shortest list of two candidates or more. */
  method NextCellMinChoice(done: Done) returns (mini: int)
    requires forall i :: 0 <= i < |done.cells| ==> |done.cells[i]| <= 8
    ensures IsChoice(done.cells, mini)
    ensures mini >= 0 ==>
      && |done.cells[mini]| > 1
      && (forall j :: 0 <= j < |done.cells| && |done.cells[j]| > 1 ==> |done.cells[mini]| <= |done.cells[j]|)
      && (forall j :: 0 <= j < mini && |done.cells[j]| > 1 ==> |done.cells[mini]| < |done.cells[j]|)
  {
    var minLen := 10;
    mini := -1;
    for i := 0 to |done.cells|
      invariant -1 <= mini < i && minLen == if mini < 0 then 10 else |done.cells[mini]|
      invariant mini < 0 ==> forall j :: 0 <= j < i ==> |done.cells[j]| <= 1
      invariant mini >= 0 ==> 1 < minLen < 10
      invariant forall j :: 0 <= j < i && |done.cells[j]| > 1 ==> minLen <= |done.cells[j]|
      invariant forall j :: 0 <= j < mini && |done.cells[j]| > 1 ==> minLen < |done.cells[j]|
    {
      if 1 < |done.cells[i]| < minLen {
        minLen := |done.cells[i]|;
        mini := i;
      }
    }
  }

  /** The first cell of those with the longest list. */
  method NextCellMaxChoice(done: Done) returns (maxi: int)
    ensures IsChoice(done.cells, maxi)
    ensures maxi >= 0 ==>
      && |done.cells[maxi]| > 1
      && (forall j :: 0 <= j < |done.cells| ==> |done.cells[j]| <= |done.cells[maxi]|)
      && (forall j :: 0 <= j < maxi ==> |done.cells[j]| < |done.cells[maxi]|)
  {
    var maxLen := 1;
    maxi := -1;
    for i := 0 to |done.cells|
      invariant -1 <= maxi < i && maxLen == if maxi < 0 then 1 else |done.cells[maxi]|
      invariant maxi >= 0 ==> maxLen > 1
      invariant forall j :: 0 <= j < i ==> |done.cells[j]| <= maxLen
      invariant forall j :: 0 <= j < maxi ==> |done.cells[j]| < maxLen
    {
      if maxLen < |done.cells[i]| {
        maxLen := |done.cells[i]|;
        maxi := i;
      }
    }
  }

  /** The greatest value besides EMPTY in a list; -1 if there is none. */
  function Highest(s: seq<nat>): (h: int)
    ensures h >= -1 && (h >= 0 ==> h in s && h != EMPTY)
    ensures forall v :: v in s && v != EMPTY ==> v <= h
  {
    if s == [] then -1
    else
      var front := s[..|s| - 1];
      var h, v := Highest(front), s[|s| - 1];
      assert forall x :: x in s <==> x in front || x == v;
      if v != EMPTY && v > h then v else h
  }

  /** A list of two different candidates has one besides EMPTY. */
  lemma HasHighest(s: seq<nat>)
    requires Distinct(s) && |s| >= 2
    ensures Highest(s) >= 0
  {
    var v := if s[0] == EMPTY then s[1] else s[0];
    assert v in s && v != EMPTY;
  }

  /**
    The first cell of those with the highest candidate; there is an exception exactly if some
    cell has no candidate.
   */
  method NextCellHighestValue(done: Done) returns (r: Option<int>)
    requires forall i :: 0 <= i < |done.cells| ==> Distinct(done.cells[i])
    ensures r.None? <==> exists i :: 0 <= i < |done.cells| && done.cells[i] == []
    ensures r.Some? ==> IsChoice(done.cells, r.value)
    ensures r.Some? && r.value >= 0 ==>
      var top := Highest(done.cells[r.value]);
      && (forall j :: 0 <= j < |done.cells| && |done.cells[j]| != 1 ==> Highest(done.cells[j]) <= top)
      && (forall j :: 0 <= j < r.value && |done.cells[j]| != 1 ==> Highest(done.cells[j]) < top)
  {
    var maxVal, maxi := -1, -1;
    for i := 0 to |done.cells|
      invariant -1 <= maxi < i && maxVal == if maxi < 0 then -1 else Highest(done.cells[maxi])
      invariant maxi < 0 ==> forall j :: 0 <= j < i ==> |done.cells[j]| == 1
      invariant maxi >= 0 ==> |done.cells[maxi]| != 1 && maxVal >= 0
      invariant forall j :: 0 <= j < i ==> done.cells[j] != []
      invariant forall j :: 0 <= j < i && |done.cells[j]| != 1 ==> Highest(done.cells[j]) <= maxVal
      invariant forall j :: 0 <= j < maxi && |done.cells[j]| != 1 ==> Highest(done.cells[j]) < maxVal
    {
      if !done.AlreadyDone(i) {
        if done.cells[i] == [] {
          return None;
        }
        HasHighest(done.cells[i]);
        var maxVali := Highest(done.cells[i]);
        if maxVal < maxVali {
          maxVal, maxi := maxVali, i;
        }
      }
    }
    r := Some(maxi);
  }

  method NextCellFirst(done: Done) returns (first: int)
    ensures IsChoice(done.cells, first)
    ensures forall j :: 0 <= j < (if first < 0 then |done.cells| else first) ==> |done.cells[j]| == 1
  {
    for i := 0 to |done.cells|
      invariant forall j :: 0 <= j < i ==> |done.cells[j]| == 1
    {
      if !done.AlreadyDone(i) {
        return i;
      }
    }
    first := -1;
  }

  /** How many neighbours of a cell are decided and not empty. */
  function FilledAround(cells: Cells, links: Links, i: nat): nat
    requires IsHex(links) && |cells| == |links| && i < |cells|
  {
    LinksInside(links, i);
    DecidedFilled(cells, links[i], |links[i]|)
  }

  /** The first of the undecided cells with the most filled neighbours. */
  method NextCellMaxNeighbors(done: Done, links: Links) returns (maxi: int)
    requires IsHex(links) && |done.cells| == |links|
    ensures IsChoice(done.cells, maxi)
    ensures maxi >= 0 ==>
      var most := FilledAround(done.cells, links, maxi);
      && (forall j :: 0 <= j < |links| && |done.cells[j]| != 1 ==> FilledAround(done.cells, links, j) <= most)
      && (forall j :: 0 <= j < maxi && |done.cells[j]| != 1 ==> FilledAround(done.cells, links, j) < most)
  {
    hide IsHex, DecidedFilled;
    var maxN: int := -1;
    maxi := -1;
    for i := 0 to |done.cells|
      invariant -1 <= maxi < i && maxN == if maxi < 0 then -1 else FilledAround(done.cells, links, maxi)
      invariant if maxi < 0 then forall j :: 0 <= j < i ==> |done.cells[j]| == 1 else |done.cells[maxi]| != 1
      invariant forall j :: 0 <= j < i && |done.cells[j]| != 1 ==> FilledAround(done.cells, links, j) <= maxN
      invariant forall j :: 0 <= j < maxi && |done.cells[j]| != 1 ==> FilledAround(done.cells, links, j) < maxN
    {
      if !done.AlreadyDone(i) {
        var n := FilledAround(done.cells, links, i);
        if n > maxN {
          maxN, maxi := n, i;
        }
      }
    }
  }

  /** The first of the undecided cells with the fewest filled neighbours. */
  method NextCellMinNeighbors(done: Done, links: Links) returns (mini: int)
    requires IsHex(links) && |done.cells| == |links|
    ensures IsChoice(done.cells, mini)
    ensures mini >= 0 ==>
      var fewest := FilledAround(done.cells, links, mini);
      && (forall j :: 0 <= j < |links| && |done.cells[j]| != 1 ==> FilledAround(done.cells, links, j) >= fewest)
      && (forall j :: 0 <= j < mini && |done.cells[j]| != 1 ==> FilledAround(done.cells, links, j) > fewest)
  {
    hide IsHex, DecidedFilled, FilledAround;
    var minN: int := 7;
    mini := -1;
    for i := 0 to |done.cells|
      invariant -1 <= mini < i && minN == if mini < 0 then 7 else FilledAround(done.cells, links, mini)
      invariant if mini < 0 then forall j :: 0 <= j < i ==> |done.cells[j]| == 1 else |done.cells[mini]| != 1
      invariant forall j :: 0 <= j < i && |done.cells[j]| != 1 ==> FilledAround(done.cells, links, j) >= minN
      invariant forall j :: 0 <= j < mini && |done.cells[j]| != 1 ==> FilledAround(done.cells, links, j) > minN
    {
      if !done.AlreadyDone(i) {
        AtMostSix(done.cells, links, i);
        var n := FilledAround(done.cells, links, i);
        if n < minN {
          minN, mini := n, i;
        }
      }
    }
  }

  lemma AtMostSix(cells: Cells, links: Links, i: nat)
    requires IsHex(links) && |cells| == |links| && i < |cells|
    ensures FilledAround(cells, links, i) <= 6
  {
    LinksInside(links, i);
    CountsFit(cells, links[i], |links[i]|);
  }

  /** The exception is possible with the highest-value strategy only, if a cell has no candidate. */
  method NextCell(done: Done, links: Links, strategy: Strategy) returns (r: Option<int>)
    requires IsHex(links) && IsBoard(links, done.cells)
    ensures r.None? <==> strategy.HighestValue? && exists i :: 0 <= i < |done.cells| && done.cells[i] == []
    ensures r.Some? ==> IsChoice(done.cells, r.value)
  {
    forall j | 0 <= j < |done.cells| ensures |done.cells[j]| <= 8 && Distinct(done.cells[j]) {
      ShortLists(done.cells[j], 8);
    }
    hide IsHex, IsChoice;
    var i: int;
    match strategy {
      case HighestValue =>
        r := NextCellHighestValue(done);
        return;
      case MinChoice => i := NextCellMinChoice(done);
      case MaxChoice => i := NextCellMaxChoice(done);
      case First => i := NextCellFirst(done);
      case MaxNeighbors => i := NextCellMaxNeighbors(done, links);
      case MinNeighbors => i := NextCellMinNeighbors(done, links);
    }
    r := Some(i);
  }

  lemma ReversedHas(s: seq<nat>)
    ensures forall v :: v in Reversed(s) <==> v in s
  {
    var r := Reversed(s);
    forall v | v in s ensures v in r {
      var k :| 0 <= k < |s| && s[k] == v;
      assert r[|s| - 1 - k] == v;
    }
  }

  /** A cell, -1 if there is none left, and the values to be tried there, one after the other. */
  datatype Moves = Moves(cell: int, values: seq<nat>)

  /** The candidates of the chosen cell: as listed, or from the last to the first with EMPTY at the end. */
  method FindMoves(done: Done, links: Links, strategy: Strategy, order: Order) returns (r: Option<Moves>)
    requires IsHex(links) && IsBoard(links, done.cells)
    ensures r.None? <==> strategy.HighestValue? && exists i :: 0 <= i < |done.cells| && done.cells[i] == []
    ensures r.Some? ==> IsChoice(done.cells, r.value.cell) && (r.value.cell < 0 ==> r.value.values == [])
    ensures r.Some? && r.value.cell >= 0 ==>
      var s, t := done.cells[r.value.cell], r.value.values;
      && (forall v: nat :: v in t <==> v in s)
      && (order.Ascending? ==> t == s)
      && (order.Descending? ==> t == Reversed(Without(s, EMPTY)) + if EMPTY in s then [EMPTY] else [])
  {
    var chosen := NextCell(done, links, strategy);
    if chosen.None? {
      return None;
    }
    var cell := chosen.value;
    if cell < 0 {
      return Some(Moves(cell, []));
    }
    var s := done.cells[cell];
    if order.Ascending? {
      return Some(Moves(cell, s));
    }
    var values := Reversed(Without(s, EMPTY));
    ReversedHas(Without(s, EMPTY));
    WithoutIs(s, EMPTY);
    if EMPTY in s {
      values := values + [EMPTY];
    }
    r := Some(Moves(cell, values));
  }

  // ---------------------------------------------------------------------
  // The search
  // ---------------------------------------------------------------------

  /** Propagation until nothing changes. */
  method Propagate(done: Done, links: Links, tiles: seq<nat>, scope: Scope)
    requires IsHex(links) && IsTiles(tiles) && IsBoard(links, done.cells)
    requires scope.After? ==> scope.cell < |links|
    modifies done
    ensures exists changed :: Narrows(links, tiles, old(done.cells), done.cells, changed)
    ensures AtRest(links, tiles, done.cells, scope)
  {
    hide Solution, AtRest;
    ghost var before := done.cells;
    ghost var ever := false;
    NarrowsSame(links, tiles, before);
    var changed := true;
    while changed
      invariant Narrows(links, tiles, before, done.cells, ever)
      invariant !changed ==> AtRest(links, tiles, done.cells, scope)
      decreases Total(done.cells, |done.cells|), changed
    {
      ghost var middle := done.cells;
      changed := ConstraintPass(done, links, tiles, scope);
      NarrowsTwice(links, tiles, before, middle, done.cells, ever, changed);
      ever := ever || changed;
    }
  }

  /** Deciding a cell leaves the solutions that have that value. */
  lemma SolutionsWith(links: Links, tiles: seq<nat>, cells: Cells, i: nat, v: nat)
    requires IsHex(links) && IsTiles(tiles) && IsBoard(links, cells) && i < |cells| && v in cells[i]
    ensures IsBoard(links, cells[i := [v]])
    ensures forall a: Values :: Solution(links, tiles, cells[i := [v]], a) <==>
      Solution(links, tiles, cells, a) && HasValue(a, i, v)
  {
    var cells' := cells[i := [v]];
    var k :| 0 <= k < |cells[i]| && cells[i][k] == v;
    forall a: Values
      ensures Solution(links, tiles, cells', a) <==> Solution(links, tiles, cells, a) && HasValue(a, i, v) {
      if Solution(links, tiles, cells', a) {
        PicksMore(cells', cells, a);
        assert a[i] in cells'[i];
      }
      if Solution(links, tiles, cells, a) && HasValue(a, i, v) {
        assert Picks(cells', a);
      }
    }
  }

  /** Only the first step begins with passes over the whole board, on a clone. */
  method Begin(prev: Done, links: Links, tiles: seq<nat>, first: bool) returns (pos: Done)
    requires IsHex(links) && IsTiles(tiles) && IsBoard(links, prev.cells)
    ensures IsBoard(links, pos.cells) && (!first ==> pos == prev)
    ensures forall a: Values :: Solution(links, tiles, pos.cells, a) <==> Solution(links, tiles, prev.cells, a)
    ensures Total(pos.cells, |pos.cells|) <= Total(prev.cells, |prev.cells|)
  {
    hide Solution, IsBoard, IsHex;
    pos := prev;
    if first {
      pos := prev.Clone();
      Propagate(pos, links, tiles, Everywhere);
    }
  }

  /**
    The search finds a solution if there is one. It never answers Open: a cell without
    candidates and a board without undecided cells are both settled by `CheckSolved`. The
    highest-value strategy can raise an exception, at the first step and without a solution only.
   */
  method SolveStep(prev: Done, links: Links, tiles: seq<nat>, strategy: Strategy, order: Order, first: bool)
    returns (status: Status, answer: Values)
    requires IsHex(links) && IsTiles(tiles) && IsBoard(links, prev.cells) && Sum(tiles, 8) == |links|
    requires first || forall i :: 0 <= i < |prev.cells| ==> |prev.cells[i]| != 0
    ensures !status.Open?
    ensures status.Solved? ==> Solution(links, tiles, prev.cells, answer)
    ensures status.Impossible? || status.Raised? ==> forall a: Values :: !Solution(links, tiles, prev.cells, a)
    ensures status.Raised? ==> strategy.HighestValue? && first
    decreases Total(prev.cells, |prev.cells|), 1
  {
    hide Solution;
    var pos := Begin(prev, links, tiles, first);
    var found := FindMoves(pos, links, strategy, order);
    if found.None? {
      ghost var i :| 0 <= i < |pos.cells| && pos.cells[i] == [];
      NoCandidate(links, tiles, pos.cells, i);
      return Raised, [];
    }
    var cell, moves := found.value.cell, found.value.values;
    if |moves| == 0 {
      NothingToTry(pos.cells, cell, moves);
      status, answer := CheckSolved(pos, links, tiles);
      return;
    }
    ghost var cells := pos.cells;
    for m := 0 to |moves|
      invariant pos.cells == cells
      invariant forall a: Values, j :: Solution(links, tiles, cells, a) && 0 <= j < m ==> !HasValue(a, cell, moves[j])
    {
      status, answer := TryMove(pos, links, tiles, strategy, order, cell, moves[m]);
      if status.Solved? {
        return;
      }
    }
    forall a: Values ensures !Solution(links, tiles, cells, a) {
      NoMoveLeft(links, tiles, cells, cell, moves, a);
    }
    status, answer := Impossible, [];
  }

  /** Plays one move on a clone and solves the rest. */
  method TryMove(pos: Done, links: Links, tiles: seq<nat>, strategy: Strategy, order: Order, cell: nat, v: nat)
    returns (status: Status, answer: Values)
    requires IsHex(links) && IsTiles(tiles) && IsBoard(links, pos.cells) && Sum(tiles, 8) == |links|
    requires cell < |pos.cells| && v in pos.cells[cell] && |pos.cells[cell]| != 1
    ensures !status.Open? && !status.Raised?
    ensures status.Solved? ==> Solution(links, tiles, pos.cells, answer)
    ensures status.Impossible? ==> forall a: Values :: Solution(links, tiles, pos.cells, a) ==> !HasValue(a, cell, v)
    decreases Total(pos.cells, |pos.cells|), 0
  {
    hide Solution;
    SolutionsWith(links, tiles, pos.cells, cell, v);
    TotalReplaced(pos.cells, cell, [v], |pos.cells|);
    var next := pos.Clone();
    next.SetDone(cell, v);
    Propagate(next, links, tiles, After(cell));
    status, answer := CheckSolved(next, links, tiles);
    if status.Open? {
      status, answer := SolveStep(next, links, tiles, strategy, order, false);
    }
  }

  lemma NothingToTry(cells: Cells, cell: int, moves: seq<nat>)
    requires IsChoice(cells, cell) && moves == []
    requires cell >= 0 ==> forall v: nat :: v in moves <==> v in cells[cell]
    ensures (forall i :: 0 <= i < |cells| ==> |cells[i]| == 1) || (exists i :: 0 <= i < |cells| && |cells[i]| == 0)
  {
    if cell >= 0 {
      var v := if cells[cell] == [] then 0 else cells[cell][0];
      assert v in moves <==> v in cells[cell];
    } else if i :| 0 <= i < |cells| && |cells[i]| != 1 {
      assert |cells[i]| == 0;
    }
  }

  lemma NoMoveLeft(links: Links, tiles: seq<nat>, cells: Cells, cell: nat, moves: seq<nat>, a: Values)
    requires IsHex(links) && IsTiles(tiles) && |cells| == |links| && cell < |cells|
    requires forall v: nat :: v in moves <==> v in cells[cell]
    requires forall a: Values, j :: Solution(links, tiles, cells, a) && 0 <= j < |moves| ==>
      !HasValue(a, cell, moves[j])
    ensures !Solution(links, tiles, cells, a)
  {
    if Picks(cells, a) {
      var v := a[cell];
      assert v in cells[cell];
      var j :| 0 <= j < |moves| && moves[j] == v;
      assert HasValue(a, cell, moves[j]);
    }
  }

  /** The tiles must fill the board: the exception of check_valid. */
  datatype Result = Wrong | Answer(status: Status, values: Values)

  /** Negative counts are cleared, as check_valid does. */
  method CheckValid(tiles: seq<int>, count: nat) returns (fixed: seq<nat>, ok: bool)
    requires |tiles| == 8
    ensures |fixed| == 8 && forall v :: 0 <= v < 8 ==> fixed[v] == if tiles[v] > 0 then tiles[v] else 0
    ensures ok == (Sum(fixed, 8) == count)
  {
    fixed := [];
    var total := 0;
    for i := 0 to 8
      invariant |fixed| == i && forall v :: 0 <= v < i ==> fixed[v] == if tiles[v] > 0 then tiles[v] else 0
      invariant total == Sum(fixed, i)
    {
      ghost var before := fixed;
      if tiles[i] > 0 {
        total := total + tiles[i];
        fixed := fixed + [tiles[i]];
      } else {
        fixed := fixed + [0];
      }
      SumPrefix(before, fixed, i);
    }
    ok := total == count;
  }

  lemma {:induction false} SumPrefix(s: seq<nat>, t: seq<nat>, n: nat)
    requires n <= |s| <= |t| && t[..|s|] == s
    ensures Sum(s, n) == Sum(t, n)
  {
    if n > 0 {
      SumPrefix(s, t, n - 1);
      assert t[n - 1] == t[..|s|][n - 1];
    }
  }

  /** solve: the puzzle is solved exactly if it has a solution. */
  method Solve(start: Done, links: Links, tiles: seq<int>, strategy: Strategy, order: Order) returns (r: Result)
    requires IsHex(links) && |tiles| == 8 && IsBoard(links, start.cells)
    ensures r.Wrong? <==> Sum(Cleared(tiles), 8) != |links|
    ensures r.Answer? ==> !r.status.Open?
    ensures r.Answer? && r.status.Solved? ==> Solution(links, Cleared(tiles), start.cells, r.values)
    ensures r.Answer? && !r.status.Solved? ==> forall a: Values :: !Solution(links, Cleared(tiles), start.cells, a)
    ensures r.Answer? && r.status.Raised? ==> strategy.HighestValue?
  {
    var fixed, ok := CheckValid(tiles, |links|);
    assert fixed == Cleared(tiles);
    if !ok {
      return Wrong;
    }
    var status, values := SolveStep(start, links, fixed, strategy, order, true);
    r := Answer(status, values);
  }

  function Cleared(tiles: seq<int>): (r: seq<nat>)
    requires |tiles| == 8
    ensures |r| == 8
  {
    seq(8, v requires 0 <= v < 8 => if tiles[v] > 0 then tiles[v] else 0)
  }
}
