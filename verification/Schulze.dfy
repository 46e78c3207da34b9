/**
  The Schulze ranking of own/schulze.py: the pairwise preference matrix, the
  in-place triple loop that turns it into widest-path strengths, and the ranking
  loop that removes candidates from the list it is iterating over.
 */
module Schulze {

  import opened Sorting

  type Ballot = seq<nat>

  /** A link strength for every ordered pair of candidates. */
  type Weights = (int, int) -> nat

  function Min(a: nat, b: nat): nat {
    if a <= b then a else b
  }

  function Max(a: nat, b: nat): nat {
    if a <= b then b else a
  }

  // ---------------------------------------------------------------------
  // Pairwise preferences
  // ---------------------------------------------------------------------

  /** How often `a` is listed on the ballot before the scan stops at `b`. */
  ghost function CountBefore(line: Ballot, a: int, b: int): nat {
    if line == [] || line[0] == b then 0
    else (if line[0] == a then 1 else 0) + CountBefore(line[1..], a, b)
  }

  ghost function Prefers(ballots: seq<Ballot>, a: int, b: int): nat {
    if ballots == [] then 0
    else Prefers(ballots[..|ballots| - 1], a, b) + CountBefore(ballots[|ballots| - 1], a, b)
  }

  /** The voter ranks `a` above `b`; a candidate left off the ballot is below every listed one. */
  ghost predicate RanksAbove(line: Ballot, a: int, b: int) {
    exists i :: 0 <= i < |line| && line[i] == a && b !in line[..i + 1]
  }

  /** On a ballot without repeats, the scan counts one exactly when the voter ranks `a` above `b`. */
  lemma {:induction false} CountBeforeIsPreference(line: Ballot, a: int, b: int)
    requires forall i, j :: 0 <= i < j < |line| ==> line[i] != line[j]
    ensures CountBefore(line, a, b) == if RanksAbove(line, a, b) then 1 else 0
  {
    if line != [] && line[0] != b {
      var rest := line[1..];
      CountBeforeIsPreference(rest, a, b);
      if line[0] == a {
        assert a !in rest;
        assert b !in line[..1] && line[0] == a;
        assert !RanksAbove(rest, a, b);
        assert RanksAbove(line, a, b);
      } else if RanksAbove(rest, a, b) {
        var i :| 0 <= i < |rest| && rest[i] == a && b !in rest[..i + 1];
        assert line[..i + 2] == [line[0]] + rest[..i + 1];
        assert line[i + 1] == a && b !in line[..(i + 1) + 1];
      } else {
        forall i {:trigger line[i]} | 0 <= i < |line| && line[i] == a ensures b in line[..i + 1] {
          assert rest[i - 1] == a;
          assert line[..i + 1] == [line[0]] + rest[..(i - 1) + 1];
        }
      }
    } else if line != [] {
      forall i {:trigger line[i]} | 0 <= i < |line| ensures b in line[..i + 1] {
        assert line[..i + 1][0] == b;
      }
    }
  }

  /** Number of the ballot prefix `line[..e]` counted for `a`, given that the scan has not stopped. */
  lemma {:induction false} CountBeforePrefix(line: Ballot, e: nat, a: int, b: int)
    requires e <= |line| && b !in line[..e]
    ensures CountBefore(line, a, b) == CountBefore(line[..e], a, b) + CountBefore(line[e..], a, b)
    decreases e
  {
    if e == 0 {
      assert line[0..] == line;
    } else {
      assert line[..e][0] != b;
      assert line[1..][..e - 1] == line[..e][1..];
      assert line[1..][e - 1..] == line[e..];
      CountBeforePrefix(line[1..], e - 1, a, b);
    }
  }

  /** Fills `d` so that d[a, b] counts the votes for `a` over `b`. */
  method FillPreferences(ballots: seq<Ballot>, size: nat) returns (d: array2<nat>)
    requires forall line, e :: line in ballots && e in line ==> e < size
    ensures fresh(d) && d.Length0 == d.Length1 == size
    ensures forall a, b :: 0 <= a < size && 0 <= b < size ==> d[a, b] == Prefers(ballots, a, b)
  {
    d := new nat[size, size]((i, j) => 0);
    for i := 0 to size
      invariant forall a, b :: 0 <= a < size && 0 <= b < i ==> d[a, b] == Prefers(ballots, a, b)
      invariant forall a, b :: 0 <= a < size && i <= b < size ==> d[a, b] == 0
    {
      for l := 0 to |ballots|
        invariant forall a, b :: 0 <= a < size && 0 <= b < i ==> d[a, b] == Prefers(ballots, a, b)
        invariant forall a, b :: 0 <= a < size && i < b < size ==> d[a, b] == 0
        invariant forall a :: 0 <= a < size ==> d[a, i] == Prefers(ballots[..l], a, i)
      {
        var line := ballots[l];
        var e := 0;
        while e < |line| && line[e] != i
          invariant e <= |line| && i !in line[..e]
          invariant forall a, b :: 0 <= a < size && 0 <= b < i ==> d[a, b] == Prefers(ballots, a, b)
          invariant forall a, b :: 0 <= a < size && i < b < size ==> d[a, b] == 0
          invariant forall a :: 0 <= a < size ==>
            d[a, i] == Prefers(ballots[..l], a, i) + CountBefore(line[..e], a, i)
        {
          assert line in ballots && line[e] in line;
          forall a {:trigger CountBefore(line[..e + 1], a, i)}
            ensures CountBefore(line[..e + 1], a, i)
              == CountBefore(line[..e], a, i) + if line[e] == a then 1 else 0
          {
            CountBeforePrefix(line[..e + 1], e, a, i);
            assert line[..e + 1][..e] == line[..e] && line[..e + 1][e..] == [line[e]];
          }
          assert line[..e + 1] == line[..e] + [line[e]];
          d[line[e], i] := d[line[e], i] + 1;
          e := e + 1;
        }
        forall a {:trigger CountBefore(line, a, i)} ensures CountBefore(line, a, i) == CountBefore(line[..e], a, i) {
          CountBeforePrefix(line, e, a, i);
        }
        assert ballots[..l + 1][..l] == ballots[..l] && ballots[..l + 1][l] == line;
      }
      assert ballots[..|ballots|] == ballots;
    }
  }

  // ---------------------------------------------------------------------
  // Widest paths
  // ---------------------------------------------------------------------

  /** The winning votes of `a` over `b`, zero where `a` does not win. */
  ghost function Victory(ballots: seq<Ballot>): Weights {
    (a: int, b: int) => if Prefers(ballots, a, b) > Prefers(ballots, b, a) then Prefers(ballots, a, b) else 0
  }

  /** The entry that the triple loop computes for (j, k) after its first `i` rounds. */
  ghost function Widest(w: Weights, i: nat, j: int, k: int): nat {
    if i == 0 then w(j, k)
    else if j == i - 1 || k == i - 1 || j == k then Widest(w, i - 1, j, k)
    else Max(Widest(w, i - 1, j, k), Min(Widest(w, i - 1, j, i - 1), Widest(w, i - 1, i - 1, k)))
  }

  ghost predicate IsPath(path: seq<int>, n: nat, j: int, k: int) {
    && |path| >= 2 && path[0] == j && path[|path| - 1] == k
    && forall m :: 0 <= m < |path| ==> 0 <= path[m] < n
  }

  /** The weakest link of a path. */
  ghost function Strength(w: Weights, path: seq<int>): nat
    requires |path| >= 2
  {
    if |path| == 2 then w(path[0], path[1])
    else Min(w(path[0], path[1]), Strength(w, path[1..]))
  }

  /** A path through the vertex at index `m` is as weak as the weaker of its two halves. */
  lemma {:induction false} StrengthSplit(w: Weights, path: seq<int>, m: nat)
    requires 0 < m < |path| - 1
    ensures Strength(w, path) == Min(Strength(w, path[..m + 1]), Strength(w, path[m..]))
    decreases m
  {
    if m == 1 {
      assert path[..2][1] == path[1];
    } else {
      StrengthSplit(w, path[1..], m - 1);
      assert path[1..][..m] == path[..m + 1][1..];
      assert path[1..][m - 1..] == path[m..];
    }
  }

  /** No path whose inner vertices are below `i` is stronger than the entry after `i` rounds. */
  lemma {:induction false} PathBelowWidest(w: Weights, i: nat, path: seq<int>)
    requires |path| >= 2 && path[0] != path[|path| - 1]
    requires forall m :: 0 < m < |path| - 1 ==> 0 <= path[m] < i
    ensures Strength(w, path) <= Widest(w, i, path[0], path[|path| - 1])
    decreases i, |path|
  {
    if i == 0 {

    } else if m :| 0 < m < |path| - 1 && path[m] == i - 1 {
      var before, after := path[..m + 1], path[m..];
      StrengthSplit(w, path, m);
      assert before[|before| - 1] == i - 1 && after[0] == i - 1;
      assert after[|after| - 1] == path[|path| - 1];
      if path[0] != i - 1 {
        PathBelowWidest(w, i, before);
      }
      if path[|path| - 1] != i - 1 {
        PathBelowWidest(w, i, after);
      }
    } else {
      PathBelowWidest(w, i - 1, path);
    }
  }

  /** The entry after `i` rounds is the strength of some path whose inner vertices are below `i`. */
  lemma {:induction false} WidestIsPath(w: Weights, n: nat, i: nat, j: int, k: int) returns (path: seq<int>)
    requires i <= n && 0 <= j < n && 0 <= k < n
    ensures IsPath(path, n, j, k) && Strength(w, path) == Widest(w, i, j, k)
  {
    if i == 0 {
      path := [j, k];
    } else if j == i - 1 || k == i - 1 || j == k || Widest(w, i, j, k) == Widest(w, i - 1, j, k) {
      path := WidestIsPath(w, n, i - 1, j, k);
    } else {
      var before := WidestIsPath(w, n, i - 1, j, i - 1);
      var after := WidestIsPath(w, n, i - 1, i - 1, k);
      path := before + after[1..];
      StrengthSplit(w, path, |before| - 1);
      assert path[..|before|] == before;
      assert path[|before| - 1..] == after;
    }
  }

  /** After all rounds, the entry for two distinct candidates is the greatest strength over all paths. */
  lemma {:induction false} WidestIsGreatest(w: Weights, n: nat, j: int, k: int)
    requires 0 <= j < n && 0 <= k < n && j != k
    ensures forall path :: IsPath(path, n, j, k) ==> Strength(w, path) <= Widest(w, n, j, k)
    ensures exists path :: IsPath(path, n, j, k) && Strength(w, path) == Widest(w, n, j, k)
  {
    forall path | IsPath(path, n, j, k) ensures Strength(w, path) <= Widest(w, n, j, k) {
      PathBelowWidest(w, n, path);
    }
    var path := WidestIsPath(w, n, n, j, k);
  }

  lemma {:induction false} WidestTriangle(w: Weights, n: nat, a: int, b: int, c: int)
    requires 0 <= a < n && 0 <= b < n && 0 <= c < n && a != c
    ensures Widest(w, n, a, c) >= Min(Widest(w, n, a, b), Widest(w, n, b, c))
  {
    if b != a && b != c {
      var before := WidestIsPath(w, n, n, a, b);
      var after := WidestIsPath(w, n, n, b, c);
      var path := before + after[1..];
      StrengthSplit(w, path, |before| - 1);
      assert path[..|before|] == before;
      assert path[|before| - 1..] == after;
      PathBelowWidest(w, n, path);
    }
  }

  ghost predicate Beats(w: Weights, n: nat, a: int, b: int) {
    Widest(w, n, a, b) > Widest(w, n, b, a)
  }

  /** "Has the stronger widest path against" is a strict partial order. */
  lemma BeatsIsTransitive(w: Weights, n: nat, a: int, b: int, c: int)
    requires 0 <= a < n && 0 <= b < n && 0 <= c < n
    requires Beats(w, n, a, b) && Beats(w, n, b, c)
    ensures Beats(w, n, a, c)
  {
    assert a != c;
    WidestTriangle(w, n, a, b, c);
    WidestTriangle(w, n, b, c, a);
    WidestTriangle(w, n, c, a, b);
  }

  /** One round of the triple loop: allows `i` as an inner vertex, overwriting `p` as it goes. */
  method ThroughVertex(ghost w: Weights, p: array2<nat>, size: nat, i: nat)
    requires p.Length0 == p.Length1 == size && i < size
    requires forall a, b :: 0 <= a < size && 0 <= b < size && a != b ==> p[a, b] == Widest(w, i, a, b)
    modifies p
    ensures forall a, b :: 0 <= a < size && 0 <= b < size && a != b ==> p[a, b] == Widest(w, i + 1, a, b)
  {
    for j := 0 to size
      invariant forall a, b :: 0 <= a < j && 0 <= b < size && a != b ==> p[a, b] == Widest(w, i + 1, a, b)
      invariant forall a, b :: j <= a < size && 0 <= b < size && a != b ==> p[a, b] == Widest(w, i, a, b)
      invariant forall b :: 0 <= b < size && b != i ==> p[i, b] == Widest(w, i, i, b)
    {
      if i != j {
        for k := 0 to size
          invariant forall a, b :: 0 <= a < j && 0 <= b < size && a != b ==> p[a, b] == Widest(w, i + 1, a, b)
          invariant forall a, b :: j < a < size && 0 <= b < size && a != b ==> p[a, b] == Widest(w, i, a, b)
          invariant forall b :: 0 <= b < size && b != i ==> p[i, b] == Widest(w, i, i, b)
          invariant forall b :: 0 <= b < k && b != j ==> p[j, b] == Widest(w, i + 1, j, b)
          invariant forall b :: k <= b < size && b != j ==> p[j, b] == Widest(w, i, j, b)
          invariant p[j, i] == Widest(w, i, j, i)
        {
          if i != k && j != k {
            p[j, k] := Max(p[j, k], Min(p[j, i], p[i, k]));
          }
        }
      }
    }
  }

  /** Computes the widest-path strengths in place. */
  method WidestPaths(ghost ballots: seq<Ballot>, d: array2<nat>, size: nat) returns (p: array2<nat>)
    requires d.Length0 == d.Length1 == size
    requires forall a, b :: 0 <= a < size && 0 <= b < size ==> d[a, b] == Prefers(ballots, a, b)
    ensures fresh(p) && p.Length0 == p.Length1 == size
    ensures forall a, b :: 0 <= a < size && 0 <= b < size && a != b ==>
      p[a, b] == Widest(Victory(ballots), size, a, b)
  {
    ghost var w := Victory(ballots);
    p := new nat[size, size]((i, j) => 0);
    for i := 0 to size
      invariant forall a, b :: 0 <= a < i && 0 <= b < size && a != b ==> p[a, b] == w(a, b)
    {
      for j := 0 to size
        invariant forall a, b :: 0 <= a < i && 0 <= b < size && a != b ==> p[a, b] == w(a, b)
        invariant forall b :: 0 <= b < j && i != b ==> p[i, b] == w(i, b)
      {
        if i != j {
          p[i, j] := if d[i, j] > d[j, i] then d[i, j] else 0;
        }
      }
    }
    for i := 0 to size
      invariant forall a, b :: 0 <= a < size && 0 <= b < size && a != b ==> p[a, b] == Widest(w, i, a, b)
    {
      ThroughVertex(w, p, size, i);
    }
  }

  // ---------------------------------------------------------------------
  // The ranking loop
  // ---------------------------------------------------------------------

  /** Every non-empty list of candidates holds one that none of the others beats. */
  lemma {:induction false} UnbeatenExists(w: Weights, n: nat, cl: seq<nat>) returns (best: nat)
    requires cl != [] && forall c :: c in cl ==> c < n
    ensures best in cl && forall c :: c in cl ==> !Beats(w, n, c, best)
  {
    if |cl| == 1 {
      best := cl[0];
    } else {
      var rest := cl[1..];
      assert forall c :: c in rest ==> c in cl;
      best := UnbeatenExists(w, n, rest);
      if Beats(w, n, cl[0], best) {
        forall c | c in cl ensures !Beats(w, n, c, cl[0]) {
          if c in rest && Beats(w, n, c, cl[0]) {
            assert cl[0] in cl && best in cl;
            BeatsIsTransitive(w, n, c, cl[0], best);
          }
        }
        best := cl[0];
      } else {
        assert forall c :: c in cl ==> c == cl[0] || c in rest;
      }
    }
  }

  /** What has been ranked so far: nobody ranked or still waiting beats an earlier candidate. */
  ghost predicate Ranked(w: Weights, n: nat, order: seq<nat>, cl: seq<nat>) {
    && Distinct(order + cl)
    && (forall c: nat :: c < n <==> c in order + cl)
    && (forall i, j :: 0 <= i < j < |order| ==> !Beats(w, n, order[j], order[i]))
    && (forall i, c :: 0 <= i < |order| && c in cl ==> !Beats(w, n, c, order[i]))
  }

  /** Where the element at `x` was before the candidate at `o + m` moved to position `o`. */
  ghost function Back(o: nat, m: nat, x: nat): nat {
    if x < o then x else if x == o then o + m else if x <= o + m then x - 1 else x
  }

  lemma RankNext(w: Weights, n: nat, order: seq<nat>, cl: seq<nat>, m: nat)
    requires Ranked(w, n, order, cl) && m < |cl|
    requires forall c :: c in cl ==> !Beats(w, n, c, cl[m])
    ensures Ranked(w, n, order + [cl[m]], cl[..m] + cl[m + 1..])
  {
    var order', cl' := order + [cl[m]], cl[..m] + cl[m + 1..];
    assert cl == cl[..m] + [cl[m]] + cl[m + 1..];
    forall c: nat ensures c in order + cl <==> c in order' + cl' {}
    assert forall c :: c in cl' ==> c in cl;
    assert forall i :: 0 <= i < |order'| ==> order'[i] == if i < |order| then order[i] else cl[m];
    forall i, j | 0 <= i < j < |order' + cl'| ensures (order' + cl')[i] != (order' + cl')[j] {
      assert (order' + cl')[i] == (order + cl)[Back(|order|, m, i)];
      assert (order' + cl')[j] == (order + cl)[Back(|order|, m, j)];
    }
    assert cl[m] in cl;
  }

  /**
    Ranks all candidates. The inner loop walks the list by position while taking
    elements out of it, so that it skips the candidate after each removal.
   */
  method Rank(ghost w: Weights, p: array2<nat>, size: nat) returns (order: seq<nat>)
    requires p.Length0 == p.Length1 == size
    requires forall a, b :: 0 <= a < size && 0 <= b < size && a != b ==> p[a, b] == Widest(w, size, a, b)
    ensures |order| == size && Distinct(order) && forall c: nat :: c < size <==> c in order
    ensures forall a, b :: 0 <= a < size && 0 <= b < size && Beats(w, size, order[a], order[b]) ==> a < b
  {
    order := [];
    var cl: seq<nat> := seq(size, i => i);
    assert order + cl == cl && forall c: nat :: c < size ==> cl[c] == c;
    forall c: nat ensures c in cl <==> c < size {
      if c < size {
        assert cl[c] in cl;
      }
    }
    while cl != []
      invariant Ranked(w, size, order, cl) && |order| + |cl| == size
      decreases |cl|
    {
      ghost var start := cl;
      var ci := 0;
      while ci < |cl|
        invariant 0 <= ci && Ranked(w, size, order, cl) && |order| + |cl| == size
        invariant |cl| < |start| || (cl == start
          && forall m :: 0 <= m < ci && m < |cl| ==> exists n :: n in cl && Beats(w, size, n, cl[m]))
        decreases |cl| - ci
      {
        var c := cl[ci];
        forall m {:trigger cl[m]} | 0 <= m < |cl| ensures cl[m] < size {
          assert (order + cl)[|order| + m] in order + cl;
        }
        var ni := 0;
        while ni < |cl| && (c == cl[ni] || p[c, cl[ni]] >= p[cl[ni], c])
          invariant ni <= |cl|
          invariant forall m :: 0 <= m < ni ==> !Beats(w, size, cl[m], c)
        {
          ni := ni + 1;
        }
        if ni == |cl| {
          RankNext(w, size, order, cl, ci);
          order := order + [c];
          cl := cl[..ci] + cl[ci + 1..];
        } else {
          assert cl[ni] in cl && Beats(w, size, cl[ni], c);
        }
        ci := ci + 1;
      }
      if |cl| == |start| {
        assert forall c :: c in cl ==> c in order + cl;
        var best := UnbeatenExists(w, size, cl);
        assert false;
      }
    }
    assert order + cl == order;
    forall a, b | 0 <= a < size && 0 <= b < size && Beats(w, size, order[a], order[b]) ensures a < b {}
  }

  // ---------------------------------------------------------------------
  // What the ranking means for the votes
  // ---------------------------------------------------------------------

  /** More voters prefer the candidate at `m` of the path to the next one than the other way, and at least `t` do. */
  ghost predicate WinsLink(ballots: seq<Ballot>, path: seq<int>, m: nat, t: nat)
    requires m + 1 < |path|
  {
    && Prefers(ballots, path[m], path[m + 1]) > Prefers(ballots, path[m + 1], path[m])
    && Prefers(ballots, path[m], path[m + 1]) >= t
  }

  ghost predicate WinningPath(ballots: seq<Ballot>, n: nat, path: seq<int>, a: int, b: int, t: nat) {
    && IsPath(path, n, a, b)
    && forall m: nat :: m + 1 < |path| ==> WinsLink(ballots, path, m, t)
  }

  /** For some number of votes a winning path leads from `a` to `b` and none leads back. */
  ghost predicate Ahead(ballots: seq<Ballot>, n: nat, a: int, b: int) {
    exists t: nat, path :: WinningPath(ballots, n, path, a, b, t) && NoneBack(ballots, n, a, b, t)
  }

  ghost predicate NoneBack(ballots: seq<Ballot>, n: nat, a: int, b: int, t: nat) {
    forall path :: !WinningPath(ballots, n, path, b, a, t)
  }

  lemma {:induction false} WinningIsStrong(ballots: seq<Ballot>, path: seq<int>, t: nat)
    requires |path| >= 2 && t > 0
    ensures Strength(Victory(ballots), path) >= t <==> forall m: nat :: m + 1 < |path| ==> WinsLink(ballots, path, m, t)
  {
    assert Victory(ballots)(path[0], path[1]) >= t <==> WinsLink(ballots, path, 0, t);
    if |path| > 2 {
      WinningIsStrong(ballots, path[1..], t);
      forall m: nat | m + 1 < |path[1..]|
        ensures WinsLink(ballots, path[1..], m, t) <==> WinsLink(ballots, path, m + 1, t) {}
      forall m: nat | 0 < m && m + 1 < |path|
        ensures WinsLink(ballots, path, m, t) <==> WinsLink(ballots, path[1..], m - 1, t) {}
    }
  }

  /** Having the stronger widest path, in terms of the votes alone. */
  lemma BeatsIff(ballots: seq<Ballot>, n: nat, a: int, b: int)
    requires 0 <= a < n && 0 <= b < n && a != b
    ensures Beats(Victory(ballots), n, a, b) <==> Ahead(ballots, n, a, b)
  {
    hide Victory, Strength, Widest, WinsLink;
    var w := Victory(ballots);
    WidestIsGreatest(w, n, a, b);
    WidestIsGreatest(w, n, b, a);
    if Beats(w, n, a, b) {
      var t := Widest(w, n, a, b);
      var path :| IsPath(path, n, a, b) && Strength(w, path) == t;
      WinningIsStrong(ballots, path, t);
      forall q ensures !WinningPath(ballots, n, q, b, a, t) {
        if IsPath(q, n, b, a) {
          WinningIsStrong(ballots, q, t);
        }
      }
      assert WinningPath(ballots, n, path, a, b, t) && NoneBack(ballots, n, a, b, t);
    }
    if Ahead(ballots, n, a, b) {
      var t: nat, path :| WinningPath(ballots, n, path, a, b, t) && NoneBack(ballots, n, a, b, t);
      var votes := Max(t, 1);
      var back :| IsPath(back, n, b, a) && Strength(w, back) == Widest(w, n, b, a);
      AtLeastOne(ballots, n, path, a, b, t);
      WinningIsStrong(ballots, path, votes);
      if Strength(w, back) >= votes {
        WinningIsStrong(ballots, back, votes);
        AtLeastOne(ballots, n, back, b, a, t);
        assert WinningPath(ballots, n, back, b, a, t);
      }
    }
  }

  /** A link that is won has one vote at least. */
  lemma AtLeastOne(ballots: seq<Ballot>, n: nat, path: seq<int>, a: int, b: int, t: nat)
    ensures WinningPath(ballots, n, path, a, b, t) <==> WinningPath(ballots, n, path, a, b, Max(t, 1))
  {
    if IsPath(path, n, a, b) {
      forall m: nat | m + 1 < |path|
        ensures WinsLink(ballots, path, m, t) <==> WinsLink(ballots, path, m, Max(t, 1)) {}
    }
  }

  /** A majority prefers `a` to every other candidate. */
  ghost predicate MajorityWinner(ballots: seq<Ballot>, n: nat, a: int) {
    forall b :: 0 <= b < n && b != a ==> Prefers(ballots, a, b) > Prefers(ballots, b, a)
  }

  lemma MajorityIsAhead(ballots: seq<Ballot>, n: nat, a: int, b: int)
    requires 0 <= a < n && 0 <= b < n && a != b && MajorityWinner(ballots, n, a)
    ensures Ahead(ballots, n, a, b)
  {
    assert WinsLink(ballots, [a, b], 0, 0);
    assert WinningPath(ballots, n, [a, b], a, b, 0);
    forall path ensures !WinningPath(ballots, n, path, b, a, 0) {
      if IsPath(path, n, b, a) {
        assert !WinsLink(ballots, path, |path| - 2, 0);
      }
    }
    assert NoneBack(ballots, n, a, b, 0);
  }

  ghost predicate NoRepeats(ballots: seq<Ballot>) {
    forall l :: 0 <= l < |ballots| ==> Distinct(ballots[l])
  }

  /** Every voter, and there is one, ranks `a` above `b`. */
  ghost predicate Unanimous(ballots: seq<Ballot>, a: int, b: int) {
    ballots != [] && forall l :: 0 <= l < |ballots| ==> RanksAbove(ballots[l], a, b)
  }

  lemma {:induction false} AllVotes(ballots: seq<Ballot>, a: int, b: int)
    requires NoRepeats(ballots)
    ensures Prefers(ballots, a, b) <= |ballots|
    ensures Prefers(ballots, a, b) == |ballots| <==> forall l :: 0 <= l < |ballots| ==> RanksAbove(ballots[l], a, b)
  {
    hide RanksAbove;
    if ballots != [] {
      var front := ballots[..|ballots| - 1];
      assert forall l :: 0 <= l < |front| ==> front[l] == ballots[l];
      AllVotes(front, a, b);
      CountBeforeIsPreference(ballots[|ballots| - 1], a, b);
      assert (forall l :: 0 <= l < |ballots| ==> RanksAbove(ballots[l], a, b)) <==>
        (forall l :: 0 <= l < |front| ==> RanksAbove(front[l], a, b)) && RanksAbove(ballots[|ballots| - 1], a, b);
    }
  }

  lemma InPrefix(line: Ballot, i: nat, j: nat)
    requires j <= i < |line|
    ensures line[j] in line[..i + 1]
  {
    assert line[..i + 1][j] == line[j];
  }

  lemma NotAboveSelf(line: Ballot, a: int)
    ensures !RanksAbove(line, a, a)
  {
    forall i | 0 <= i < |line| && line[i] == a ensures a in line[..i + 1] {
      InPrefix(line, i, i);
    }
  }

  lemma RanksTransitive(line: Ballot, a: int, b: int, c: int)
    requires Distinct(line) && RanksAbove(line, a, b) && RanksAbove(line, b, c)
    ensures RanksAbove(line, a, c)
  {
    var i :| 0 <= i < |line| && line[i] == a && b !in line[..i + 1];
    var j :| 0 <= j < |line| && line[j] == b && c !in line[..j + 1];
    forall k | 0 <= k <= i ensures line[k] in line[..i + 1] {
      InPrefix(line, i, k);
    }
    assert i < j;
    assert line[..i + 1] == line[..j + 1][..i + 1];
  }

  lemma RanksOneWay(line: Ballot, a: int, b: int)
    requires Distinct(line) && RanksAbove(line, a, b)
    ensures !RanksAbove(line, b, a)
  {
    if RanksAbove(line, b, a) {
      RanksTransitive(line, a, b, a);
      NotAboveSelf(line, a);
    }
  }

  /** A path on which all voters agree link by link is one that they agree about from end to end. */
  lemma {:induction false} AgreedPath(ballots: seq<Ballot>, path: seq<int>, l: nat)
    requires NoRepeats(ballots) && l < |ballots| && |path| >= 2
    requires forall m: nat :: m + 1 < |path| ==> WinsLink(ballots, path, m, |ballots|)
    ensures RanksAbove(ballots[l], path[0], path[|path| - 1])
  {
    hide RanksAbove, Prefers;
    assert WinsLink(ballots, path, 0, |ballots|);
    AllVotes(ballots, path[0], path[1]);
    if |path| > 2 {
      forall m: nat | m + 1 < |path[1..]| ensures WinsLink(ballots, path[1..], m, |ballots|) {
        assert WinsLink(ballots, path, m + 1, |ballots|);
      }
      AgreedPath(ballots, path[1..], l);
      RanksTransitive(ballots[l], path[0], path[1], path[|path| - 1]);
    }
  }

  lemma UnanimousIsAhead(ballots: seq<Ballot>, n: nat, a: int, b: int)
    requires 0 <= a < n && 0 <= b < n && NoRepeats(ballots) && Unanimous(ballots, a, b)
    ensures a != b && Ahead(ballots, n, a, b)
  {
    hide RanksAbove, Prefers;
    var votes := |ballots|;
    AllVotes(ballots, a, b);
    AllVotes(ballots, b, a);
    RanksOneWay(ballots[0], a, b);
    assert WinsLink(ballots, [a, b], 0, votes);
    assert WinningPath(ballots, n, [a, b], a, b, votes);
    forall path ensures !WinningPath(ballots, n, path, b, a, votes) {
      if WinningPath(ballots, n, path, b, a, votes) {
        AgreedPath(ballots, path, 0);
      }
    }
    assert NoneBack(ballots, n, a, b, votes);
  }

  /**
    Ballots in, ranking out: whoever is ahead by some number of votes comes first. So a majority
    winner is the first of all, and nobody comes before a candidate that all voters prefer.
   */
  method Schulze(ballots: seq<Ballot>, size: nat) returns (order: seq<nat>)
    requires forall line, e :: line in ballots && e in line ==> e < size
    ensures |order| == size && Distinct(order) && forall c: nat :: c < size <==> c in order
    ensures forall i, j :: 0 <= i < size && 0 <= j < size && Ahead(ballots, size, order[i], order[j]) ==> i < j
    ensures forall a: nat :: a < size && MajorityWinner(ballots, size, a) ==> order[0] == a
    ensures NoRepeats(ballots) ==>
      forall i, j :: 0 <= i < size && 0 <= j < size && Unanimous(ballots, order[i], order[j]) ==> i < j
  {
    hide Victory, Widest, Prefers, Ahead, MajorityWinner, Unanimous;
    var d := FillPreferences(ballots, size);
    var p := WidestPaths(ballots, d, size);
    order := Rank(Victory(ballots), p, size);
    forall i, j | 0 <= i < size && 0 <= j < size && Ahead(ballots, size, order[i], order[j]) ensures i < j {
      assert order[i] in order && order[j] in order;
      NotAheadOfSelf(ballots, size, order[i]);
      BeatsIff(ballots, size, order[i], order[j]);
    }
    forall a: nat | a < size && MajorityWinner(ballots, size, a) ensures order[0] == a {
      assert a in order;
      var k :| 0 <= k < |order| && order[k] == a;
      if k > 0 {
        assert order[0] in order;
        MajorityIsAhead(ballots, size, a, order[0]);
      }
    }
    if NoRepeats(ballots) {
      forall i, j | 0 <= i < size && 0 <= j < size && Unanimous(ballots, order[i], order[j]) ensures i < j {
        assert order[i] in order && order[j] in order;
        UnanimousIsAhead(ballots, size, order[i], order[j]);
      }
    }
  }

  lemma NotAheadOfSelf(ballots: seq<Ballot>, n: nat, a: int)
    ensures !Ahead(ballots, n, a, a)
  {}
}
