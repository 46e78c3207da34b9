/**
  The board of own/hexiom2.py, class Hex: the cells of a hexagon in reading order, and the
  links between neighbours.
 */
module HexGrid {

  import opened Sorting
  import opened HexiomRules

  datatype Place = Place(x: int, y: int)

  const DIRS: seq<Place> := [Place(1, 0), Place(-1, 0), Place(0, 1), Place(0, -1), Place(1, 1), Place(-1, -1)]

  function Plus(p: Place, d: Place): Place {
    Place(p.x + d.x, p.y + d.y)
  }

  /** The hexagon with `size` cells on a side. */
  predicate InHex(size: nat, p: Place) {
    && 0 <= p.y < 2 * size - 1
    && 0 <= p.x < 2 * size - 1
    && p.y - size < p.x < p.y + size
  }

  predicate Before(p: Place, y: int, x: int) {
    p.y < y || (p.y == y && p.x < x)
  }

  /** The cells of the hexagon that come before column `x` of row `y`, each once. */
  ghost predicate Listed(size: nat, places: seq<Place>, y: int, x: int) {
    && (forall k :: 0 <= k < |places| ==> InHex(size, places[k]) && Before(places[k], y, x))
    && (forall p :: InHex(size, p) && Before(p, y, x) ==> p in places)
    && (forall j, k :: 0 <= j < k < |places| ==> places[j] != places[k])
  }

  lemma ListedNext(size: nat, places: seq<Place>, y: int, x: int)
    requires Listed(size, places, y, x) && InHex(size, Place(x, y))
    ensures Listed(size, places + [Place(x, y)], y, x + 1)
  {
    var places' := places + [Place(x, y)];
    forall p | InHex(size, p) && Before(p, y, x + 1) ensures p in places' {
      if p != Place(x, y) {
        assert Before(p, y, x);
      } else {
        assert places'[|places|] == p;
      }
    }
  }

  lemma ListedRow(size: nat, places: seq<Place>, y: int, x: int, x': int)
    requires Listed(size, places, y, x) && forall p :: InHex(size, p) && p.y == y ==> p.x < x
    requires forall p :: InHex(size, p) && p.y == y + 1 ==> p.x >= x'
    ensures Listed(size, places, y + 1, x')
  {}

  /** The rows from the top to the middle, and from there down. */
  method PlaceNodes(size: nat) returns (places: seq<Place>)
    requires size >= 1
    ensures |places| == 3 * size * (size - 1) + 1
    ensures forall p :: p in places <==> InHex(size, p)
    ensures forall j, k :: 0 <= j < k < |places| ==> places[j] != places[k]
  {
    places := [];
    for y := 0 to size
      invariant Listed(size, places, y, 0)
      invariant 2 * |places| == 2 * size * y + y * (y - 1)
    {
      ghost var start := |places|;
      for x := 0 to size + y
        invariant Listed(size, places, y, x) && |places| == start + x
      {
        ListedNext(size, places, y, x);
        places := places + [Place(x, y)];
      }
      ListedRow(size, places, y, size + y, 0);
      assert 2 * size * (y + 1) + (y + 1) * y == 2 * size * y + y * (y - 1) + 2 * (size + y);
    }
    ListedFrom(size, places, size, 0, 1);
    assert 2 * |places| == 2 * size * size + size * (size - 1);
    for y := 1 to size
      invariant Listed(size, places, size + y - 1, y)
      invariant 2 * |places| == 2 * size * size + size * (size - 1) + (y - 1) * (4 * size - 2) - (y - 1) * y
    {
      ghost var start := |places|;
      for x := y to 2 * size - 1
        invariant Listed(size, places, size + y - 1, x) && |places| == start + x - y
      {
        ListedNext(size, places, size + y - 1, x);
        places := places + [Place(x, size + y - 1)];
      }
      ListedRow(size, places, size + y - 1, 2 * size - 1, y + 1);
      RowCount(size, y);
    }
    AllListed(size, places);
    TotalCount(size);
  }

  lemma ListedFrom(size: nat, places: seq<Place>, y: int, x: int, x': int)
    requires Listed(size, places, y, x) && x <= x' && forall p :: InHex(size, p) && p.y == y ==> p.x >= x'
    ensures Listed(size, places, y, x')
  {}

  lemma AllListed(size: nat, places: seq<Place>)
    requires size >= 1 && Listed(size, places, 2 * size - 1, size)
    ensures forall p :: p in places <==> InHex(size, p)
  {
    forall p | InHex(size, p) ensures p in places {
      assert Before(p, 2 * size - 1, size);
    }
  }

  lemma RowCount(size: nat, y: nat)
    requires 1 <= y < size
    ensures y * (4 * size - 2) - y * (y + 1) == (y - 1) * (4 * size - 2) - (y - 1) * y + 2 * (2 * size - 1 - y)
  {}

  lemma TotalCount(size: nat)
    requires size >= 1
    ensures 2 * (3 * size * (size - 1) + 1)
      == 2 * size * size + size * (size - 1) + (size - 1) * (4 * size - 2) - (size - 1) * size
  {}

  /** The number of a place: its position in the list. */
  function IdOf(places: seq<Place>, p: Place): (i: nat)
    requires p in places
    ensures i < |places| && places[i] == p
  {
    if places[0] == p then 0 else 1 + IdOf(places[1..], p)
  }

  function Abs(n: int): nat {
    if n < 0 then -n else n
  }

  /** The steps from one cell to another: a step changes one coordinate by one, or both by the same one. */
  function Distance(p: Place, q: Place): nat {
    var dx, dy := q.x - p.x, q.y - p.y;
    if Abs(dx) >= Abs(dy) && Abs(dx) >= Abs(dx - dy) then Abs(dx)
    else if Abs(dy) >= Abs(dx - dy) then Abs(dy)
    else Abs(dx - dy)
  }

  predicate Beside(p: Place, q: Place) {
    Distance(p, q) == 1
  }

  /** The six directions lead to the six cells at distance one. */
  lemma DirsLeadBeside(p: Place, q: Place)
    ensures Beside(p, q) <==> exists d :: 0 <= d < |DIRS| && q == Plus(p, DIRS[d])
  {
    if Beside(p, q) {
      var dx, dy := q.x - p.x, q.y - p.y;
      assert -1 <= dx <= 1 && -1 <= dy <= 1 && -1 <= dx - dy <= 1;
      assert Plus(p, DIRS[0]) == q || Plus(p, DIRS[1]) == q || Plus(p, DIRS[2]) == q
        || Plus(p, DIRS[3]) == q || Plus(p, DIRS[4]) == q || Plus(p, DIRS[5]) == q;
    }
  }

  /** link_nodes for one cell. */
  method LinkNode(places: seq<Place>, i: nat) returns (ids: seq<nat>)
    requires i < |places| && forall j, k :: 0 <= j < k < |places| ==> places[j] != places[k]
    ensures |ids| <= 6 && Distinct(ids) && Inside(ids, |places|)
    ensures forall k: nat :: k in ids <==> k < |places| && Beside(places[i], places[k])
  {
    ids := [];
    for d := 0 to |DIRS|
      invariant |ids| <= d && Inside(ids, |places|) && Distinct(ids)
      invariant forall k: nat :: k in ids <==>
        k < |places| && exists e :: 0 <= e < d && places[k] == Plus(places[i], DIRS[e])
    {
      var p := Plus(places[i], DIRS[d]);
      ghost var before := ids;
      if p in places {
        var k := IdOf(places, p);
        assert k !in ids by {
          DirsDiffer(places[i], d);
        }
        ids := ids + [k];
      }
    }
    forall k: nat | k < |places|
      ensures Beside(places[i], places[k]) <==> exists e :: 0 <= e < |DIRS| && places[k] == Plus(places[i], DIRS[e])
    {
      DirsLeadBeside(places[i], places[k]);
    }
  }

  lemma DirsDiffer(p: Place, d: nat)
    requires d < |DIRS|
    ensures forall e :: 0 <= e < d ==> Plus(p, DIRS[e]) != Plus(p, DIRS[d])
  {}

  lemma BesideBack(p: Place, q: Place)
    requires Beside(p, q)
    ensures Beside(q, p) && p != q
  {}

  /** The board of the given size: a cell's links are the cells beside it. */
  method BuildHex(size: nat) returns (places: seq<Place>, links: Links)
    requires size >= 1
    ensures |places| == |links| == 3 * size * (size - 1) + 1
    ensures forall p :: p in places <==> InHex(size, p)
    ensures IsHex(links)
    ensures forall i: nat, k: nat :: i < |links| && k < |links| ==> (k in links[i] <==> Beside(places[i], places[k]))
    ensures forall i: nat, k: nat :: i < |links| && k < |links| && k in links[i] ==> i in links[k] && i != k
  {
    places := PlaceNodes(size);
    links := [];
    for i := 0 to |places|
      invariant |links| == i
      invariant forall j :: 0 <= j < i ==> |links[j]| <= 6 && Distinct(links[j]) && Inside(links[j], |places|)
      invariant forall j: nat, k: nat :: j < i && k < |places| ==> (k in links[j] <==> Beside(places[j], places[k]))
    {
      var ids := LinkNode(places, i);
      links := links + [ids];
    }
    forall i: nat, k: nat | i < |links| && k < |links| && k in links[i] ensures i in links[k] && i != k {
      BesideBack(places[i], places[k]);
    }
  }
}
