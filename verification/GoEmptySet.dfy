/**
  The index of empty points in own/go.py: a list of points, and for each point its place there.
 */
module GoEmptySet {

  ghost function Elements(s: seq<nat>): set<nat> {
    set e | e in s
  }

  class EmptySet {
    var empties: seq<nat>
    var emptyPos: seq<nat>

    /** `emptyPos` finds every listed point, so no point is listed twice. */
    ghost predicate Valid()
      reads this
    {
      forall i :: 0 <= i < |empties| ==> empties[i] < |emptyPos| && emptyPos[empties[i]] == i
    }

    ghost function Points(): set<nat>
      reads this
    {
      Elements(empties)
    }

    constructor (n: nat)
      ensures Valid() && |emptyPos| == n
      ensures forall p: nat :: p in Points() <==> p < n
    {
      empties := seq(n, i requires 0 <= i < n => i);
      emptyPos := seq(n, i requires 0 <= i < n => i);
      new;
      forall p: nat | p < n ensures p in empties {
        assert empties[p] == p;
      }
    }

    method Set(i: nat, pos: nat)
      requires i < |empties| && pos < |emptyPos|
      modifies this
      ensures empties == old(empties)[i := pos] && emptyPos == old(emptyPos)[pos := i]
    {
      empties := empties[i := pos];
      emptyPos := emptyPos[pos := i];
    }

    method Add(pos: nat)
      requires Valid() && pos < |emptyPos| && pos !in Points()
      modifies this
      ensures Valid() && |emptyPos| == old(|emptyPos|)
      ensures Points() == old(Points()) + {pos}
    {
      emptyPos := emptyPos[pos := |empties|];
      empties := empties + [pos];
      assert pos in empties by {
        assert empties[|empties| - 1] == pos;
      }
    }

    /** Fills the gap with the last point. */
    method Remove(pos: nat)
      requires Valid() && pos in Points()
      modifies this
      ensures Valid() && |emptyPos| == old(|emptyPos|)
      ensures Points() == old(Points()) - {pos}
    {
      ghost var before := empties;
      ghost var k := IndexOf(pos);
      Set(emptyPos[pos], empties[|empties| - 1]);
      empties := empties[..|empties| - 1];
      AfterGap(before, k);
    }

    lemma IndexOf(pos: nat) returns (k: nat)
      requires Valid() && pos in Points()
      ensures k < |empties| && empties[k] == pos && pos < |emptyPos| && emptyPos[pos] == k
    {
      k :| k < |empties| && empties[k] == pos;
    }

    /** Exchanges the points at `i` and `j`, as the two calls of `set` in random_choice do. */
    method Swap(i: nat, j: nat)
      requires Valid() && i <= j < |empties|
      modifies this
      ensures Valid() && |emptyPos| == old(|emptyPos|) && Points() == old(Points())
      ensures empties == old(empties)[i := old(empties[j])][j := old(empties[i])]
    {
      ghost var before := empties;
      var pos := empties[i];
      Set(i, empties[j]);
      Set(j, pos);
      SwapKeeps(before, i, j);
      if i < j {
        assert before[i] != before[j];
      }
    }
  }

  lemma AfterGap(s: seq<nat>, k: nat)
    requires k < |s| && forall i, j :: 0 <= i < j < |s| ==> s[i] != s[j]
    ensures Elements(s[k := s[|s| - 1]][..|s| - 1]) == Elements(s) - {s[k]}
  {
    var t := s[k := s[|s| - 1]][..|s| - 1];
    assert forall i :: 0 <= i < |t| ==> t[i] == if i == k then s[|s| - 1] else s[i];
    forall e | e in s && e != s[k] ensures e in t {
      var i :| 0 <= i < |s| && s[i] == e;
      if i < |s| - 1 {
        assert t[i] == e;
      } else {
        assert t[k] == e;
      }
    }
  }

  lemma SwapKeeps(s: seq<nat>, i: nat, j: nat)
    requires i <= j < |s|
    ensures Elements(s[i := s[j]][j := s[i]]) == Elements(s)
  {
    var t := s[i := s[j]][j := s[i]];
    forall e | e in s ensures e in t {
      var k :| 0 <= k < |s| && s[k] == e;
      if k == i {
        assert t[j] == e;
      } else if k == j {
        assert t[i] == e;
      } else {
        assert t[k] == e;
      }
    }
  }
}
