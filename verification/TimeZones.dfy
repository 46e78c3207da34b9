/**
  Time zones with changing offsets, class DstTzInfo of lib/pytz/tzinfo.py. Instants and wall
  clock readings are integers, in seconds; a zone has a sorted list of transition instants.
 */
module TimeZones {

  import opened Options

  const HOUR: int := 3600
  const DAY: int := 24 * HOUR

  /** (utcoffset, dstoffset, tzname); a source tzinfo object stands for one of these. */
  datatype Info = Info(utcoffset: int, dst: int, name: string)

  /** A wall clock reading with its zone information. */
  datatype Local = Local(wall: int, info: Info) {
    function Instant(): int {
      wall - info.utcoffset
    }
  }

  datatype Zone = Zone(times: seq<int>, infos: seq<Info>)

  /** A table with its transitions in order. */
  predicate IsZone(z: Zone) {
    && |z.times| == |z.infos| > 0
    && forall i, j :: 0 <= i < j < |z.times| ==> z.times[i] < z.times[j]
  }

  /** Offsets below a day and transitions more than two days apart, as in the zones of the database. */
  predicate IsSpaced(z: Zone) {
    && IsZone(z)
    && (forall i :: 0 <= i < |z.infos| ==> -DAY < z.infos[i].utcoffset < DAY)
    && (forall i, j :: 0 <= i < j < |z.times| ==> z.times[j] - z.times[i] > 2 * DAY)
  }

  /** bisect_right: how many of the first `n` transitions are not after `t`. */
  function CountUntil(times: seq<int>, t: int, n: nat): (k: nat)
    requires n <= |times|
    ensures k <= n
  {
    if n == 0 then 0 else CountUntil(times, t, n - 1) + (if times[n - 1] <= t then 1 else 0)
  }

  lemma {:induction false} CountIsPosition(times: seq<int>, t: int, n: nat, i: nat)
    requires n <= |times| && forall i, j :: 0 <= i < j < |times| ==> times[i] < times[j]
    requires i < n
    ensures times[i] <= t <==> i < CountUntil(times, t, n)
  {
    if i < n - 1 {
      CountIsPosition(times, t, n - 1, i);
    } else if n > 1 {
      CountIsPosition(times, t, n - 1, n - 2);
    }
  }

  /** The entry in force at `t`; the first one before all transitions. */
  function IndexAt(z: Zone, t: int): (i: nat)
    requires IsZone(z)
    ensures i < |z.infos|
  {
    var k := CountUntil(z.times, t, |z.times|);
    if k > 0 then k - 1 else 0
  }

  lemma IndexIs(z: Zone, t: int, i: nat)
    requires IsZone(z) && i < |z.times|
    ensures i <= IndexAt(z, t) <==> i == 0 || z.times[i] <= t
  {
    CountIsPosition(z.times, t, |z.times|, i);
  }

  lemma IndexMonotone(z: Zone, t: int, u: int)
    requires IsZone(z) && t <= u
    ensures IndexAt(z, t) <= IndexAt(z, u)
  {
    IndexIs(z, t, IndexAt(z, t));
    IndexIs(z, u, IndexAt(z, t));
  }

  function FromUtc(z: Zone, t: int): Local
    requires IsZone(z)
  {
    var info := z.infos[IndexAt(z, t)];
    Local(t + info.utcoffset, info)
  }

  function Normalize(z: Zone, l: Local): Local
    requires IsZone(z)
  {
    FromUtc(z, l.Instant())
  }

  /** Normalizing changes nothing about a time that came from UTC, and never the instant. */
  lemma NormalizeKeeps(z: Zone, t: int, l: Local)
    requires IsZone(z)
    ensures FromUtc(z, t).Instant() == t && Normalize(z, FromUtc(z, t)) == FromUtc(z, t)
    ensures Normalize(z, l).Instant() == l.Instant()
    ensures Normalize(z, Normalize(z, l)) == Normalize(z, l)
  {}

  // ---------------------------------------------------------------------
  // From wall clock to UTC
  // ---------------------------------------------------------------------

  predicate IsPreimage(z: Zone, t: int, wall: int)
    requires IsZone(z)
  {
    FromUtc(z, t).wall == wall
  }

  /** What the clock a day away suggests; the loop body of localize. */
  function Guess(z: Zone, wall: int, delta: int): Local
    requires IsZone(z)
  {
    Normalize(z, Local(wall, z.infos[IndexAt(z, wall + delta)]))
  }

  /** The guesses that show the wall clock reading that was asked for. */
  function Possible(z: Zone, wall: int): set<Local>
    requires IsZone(z)
  {
    (if Guess(z, wall, -DAY).wall == wall then {Guess(z, wall, -DAY)} else {})
    + (if Guess(z, wall, DAY).wall == wall then {Guess(z, wall, DAY)} else {})
  }

  /** Between a day before and a day after there is at most one transition. */
  lemma OneTransition(z: Zone, wall: int)
    requires IsSpaced(z)
    ensures IndexAt(z, wall - DAY) <= IndexAt(z, wall + DAY) <= IndexAt(z, wall - DAY) + 1
  {
    var a, b := IndexAt(z, wall - DAY), IndexAt(z, wall + DAY);
    IndexMonotone(z, wall - DAY, wall + DAY);
    if b > a + 1 {
      IndexIs(z, wall - DAY, a + 1);
      IndexIs(z, wall + DAY, b);
    }
  }

  /** A preimage is less than a day away, so one of the two guesses finds it. */
  lemma PreimageIsGuessed(z: Zone, t: int, wall: int)
    requires IsSpaced(z) && IsPreimage(z, t, wall)
    ensures FromUtc(z, t) in Possible(z, wall)
  {
    OneTransition(z, wall);
    IndexMonotone(z, wall - DAY, t);
    IndexMonotone(z, t, wall + DAY);
  }

  /** The possible times are exactly those that come from a UTC instant. */
  lemma PossibleIff(z: Zone, wall: int, l: Local)
    requires IsSpaced(z)
    ensures l in Possible(z, wall) <==> l.wall == wall && FromUtc(z, l.Instant()) == l
  {
    if l in Possible(z, wall) {
      var delta := if l == Guess(z, wall, -DAY) then -DAY else DAY;
      assert l == Guess(z, wall, delta);
    }
    if l.wall == wall && FromUtc(z, l.Instant()) == l {
      PreimageIsGuessed(z, l.Instant(), wall);
    }
  }

  /** Different possible times are different instants: no two are equal as Python compares them. */
  lemma PossibleDiffer(z: Zone, wall: int, l: Local, m: Local)
    requires IsSpaced(z) && l in Possible(z, wall) && m in Possible(z, wall) && l.Instant() == m.Instant()
    ensures l == m
  {
    PossibleIff(z, wall, l);
    PossibleIff(z, wall, m);
  }

  // ---------------------------------------------------------------------
  // Winding the clock out of a gap
  // ---------------------------------------------------------------------

  /** Where the gap around a reading without preimage begins and ends. */
  function GapStart(z: Zone, wall: int): int
    requires IsZone(z)
  {
    z.times[IndexAt(z, wall + DAY)] + z.infos[IndexAt(z, wall - DAY)].utcoffset
  }

  function GapEnd(z: Zone, wall: int): int
    requires IsZone(z)
  {
    z.times[IndexAt(z, wall + DAY)] + z.infos[IndexAt(z, wall + DAY)].utcoffset
  }

  /** A reading without preimage lies in the gap of one transition. */
  lemma GapAround(z: Zone, wall: int)
    requires IsSpaced(z) && Possible(z, wall) == {}
    ensures IndexAt(z, wall + DAY) == IndexAt(z, wall - DAY) + 1
    ensures GapStart(z, wall) <= wall < GapEnd(z, wall)
  {
    var a, b := IndexAt(z, wall - DAY), IndexAt(z, wall + DAY);
    OneTransition(z, wall);
    var ta, tb := wall - z.infos[a].utcoffset, wall - z.infos[b].utcoffset;
    IndexMonotone(z, wall - DAY, ta);
    IndexMonotone(z, ta, wall + DAY);
    IndexMonotone(z, wall - DAY, tb);
    IndexMonotone(z, tb, wall + DAY);
    assert Guess(z, wall, -DAY).wall != wall && Guess(z, wall, DAY).wall != wall by {
      assert Guess(z, wall, -DAY) !in Possible(z, wall) && Guess(z, wall, DAY) !in Possible(z, wall);
    }
    assert a != b;
    IndexIs(z, ta, b);
    IndexIs(z, tb, b);
  }

  /** Transitions within two days of each other are in the other order, or the same. */
  lemma NotFar(z: Zone, i: nat, j: nat)
    requires IsSpaced(z) && i < |z.times| && j < |z.times| && z.times[j] - z.times[i] <= 2 * DAY
    ensures j <= i
  {}

  lemma OffsetBound(z: Zone, i: nat)
    requires IsSpaced(z) && i < |z.infos|
    ensures -DAY < z.infos[i].utcoffset < DAY
  {}

  lemma SpacedIsZone(z: Zone)
    requires IsSpaced(z)
    ensures IsZone(z)
  {}

  /** Six hours on, a gap is either over or still the same. */
  lemma StillSameGap(z: Zone, wall: int)
    requires IsSpaced(z) && Possible(z, wall) == {} && Possible(z, wall + 6 * HOUR) == {}
    ensures GapEnd(z, wall + 6 * HOUR) == GapEnd(z, wall)
  {
    hide IsSpaced, Possible;
    SpacedIsZone(z);
    var later := wall + 6 * HOUR;
    GapAround(z, wall);
    GapAround(z, later);
    var a, b := IndexAt(z, later - DAY), IndexAt(z, later + DAY);
    var b0 := IndexAt(z, wall + DAY);
    OffsetBound(z, b0);
    IndexMonotone(z, wall + DAY, later + DAY);
    IndexIs(z, later - DAY, a);
    hide IndexAt;
    if a > 0 {
      NotFar(z, b0, a);
    }
    if a == b0 {
      NotFar(z, b0, b);
    }
  }

  lemma WasSameGap(z: Zone, wall: int)
    requires IsSpaced(z) && Possible(z, wall) == {} && Possible(z, wall - 6 * HOUR) == {}
    ensures GapStart(z, wall - 6 * HOUR) == GapStart(z, wall)
  {
    StillSameGap(z, wall - 6 * HOUR);
    hide IsSpaced, Possible;
    SpacedIsZone(z);
    var earlier := wall - 6 * HOUR;
    GapAround(z, wall);
    GapAround(z, earlier);
    SameTransition(z, wall, earlier);
  }

  /** A gap's end tells its transition. */
  lemma SameTransition(z: Zone, wall: int, earlier: int)
    requires IsSpaced(z) && GapEnd(z, earlier) == GapEnd(z, wall)
    ensures IndexAt(z, earlier + DAY) == IndexAt(z, wall + DAY)
  {
    hide IsSpaced;
    SpacedIsZone(z);
    var b, c := IndexAt(z, earlier + DAY), IndexAt(z, wall + DAY);
    OffsetBound(z, b);
    OffsetBound(z, c);
    NotFar(z, b, c);
    NotFar(z, c, b);
  }

  /** How far the clock still has to be wound, forward or back. */
  function ToGapEnd(z: Zone, wall: int, forward: bool): nat
    requires IsSpaced(z)
  {
    if Possible(z, wall) != {} then 0
    else
      GapAround(z, wall);
      if forward then GapEnd(z, wall) - wall else wall - GapStart(z, wall) + 1
  }

  lemma WindingEnds(z: Zone, wall: int)
    requires IsSpaced(z) && Possible(z, wall) == {}
    ensures ToGapEnd(z, wall + 6 * HOUR, true) < ToGapEnd(z, wall, true)
    ensures ToGapEnd(z, wall - 6 * HOUR, false) < ToGapEnd(z, wall, false)
  {
    GapAround(z, wall);
    if Possible(z, wall + 6 * HOUR) == {} {
      StillSameGap(z, wall);
    }
    if Possible(z, wall - 6 * HOUR) == {} {
      WasSameGap(z, wall);
    }
  }

  // ---------------------------------------------------------------------
  // localize
  // ---------------------------------------------------------------------

  /** The result, or the exception that is raised. */
  datatype Outcome = Found(local: Local) | NonExistentTimeError | AmbiguousTimeError

  function Wound(o: Outcome, seconds: int): Outcome {
    if o.Found? then Found(Local(o.local.wall + seconds, o.local.info)) else o
  }

  predicate Matches(l: Local, isDst: bool) {
    (l.info.dst != 0) == isDst
  }

  /** Of two possible times, the one with the wanted flag; failing that, the earlier one for `isDst`. */
  function Choose(l: Local, m: Local, isDst: bool): Local {
    if Matches(l, isDst) && !Matches(m, isDst) then l
    else if Matches(m, isDst) && !Matches(l, isDst) then m
    else if (l.Instant() < m.Instant()) == isDst then l
    else m
  }

  function Localize(z: Zone, wall: int, isDst: Option<bool>): Outcome
    requires IsSpaced(z)
    decreases ToGapEnd(z, wall, isDst.Some? && isDst.value)
  {
    var possible := Possible(z, wall);
    var before, after := Guess(z, wall, -DAY), Guess(z, wall, DAY);
    if |possible| == 1 then Found(if before.wall == wall then before else after)
    else if |possible| == 0 then
      WindingEnds(z, wall);
      if isDst.None? then NonExistentTimeError
      else if isDst.value then Wound(Localize(z, wall + 6 * HOUR, isDst), -6 * HOUR)
      else Wound(Localize(z, wall - 6 * HOUR, isDst), 6 * HOUR)
    else if isDst.None? then AmbiguousTimeError
    else Found(Choose(before, after, isDst.value))
  }

  lemma PossibleSize(z: Zone, wall: int)
    requires IsZone(z)
    ensures var p, before, after := Possible(z, wall), Guess(z, wall, -DAY), Guess(z, wall, DAY);
      && |p| <= 2
      && (|p| == 1 ==> p == {if before.wall == wall then before else after})
      && (|p| == 2 ==> p == {before, after} && before != after)
  {
    var p, before, after := Possible(z, wall), Guess(z, wall, -DAY), Guess(z, wall, DAY);
    if before.wall == wall && after.wall == wall {
      if before == after {
        assert p == {before};
      } else {
        assert p == {before} + {after};
      }
    } else if before.wall == wall {
      assert p == {before};
    } else if after.wall == wall {
      assert p == {after};
    }
  }

  /**
    Without a hint, localize inverts fromutc: it returns the only UTC instant that shows the
    reading, and says which way it fails when there is none or there are two.
   */
  lemma {:induction false} LocalizeInverts(z: Zone, wall: int)
    requires IsSpaced(z)
    ensures var o := Localize(z, wall, None);
      && (o.Found? ==> FromUtc(z, o.local.Instant()) == o.local && forall t :: IsPreimage(z, t, wall) <==>
        t == o.local.Instant())
      && (o.NonExistentTimeError? <==> forall t :: !IsPreimage(z, t, wall))
      && (o.AmbiguousTimeError? <==> exists t, u :: t < u && IsPreimage(z, t, wall) && IsPreimage(z, u, wall))
  {
    var o, p := Localize(z, wall, None), Possible(z, wall);
    PossibleSize(z, wall);
    forall t ensures IsPreimage(z, t, wall) <==> FromUtc(z, t) in p {
      PossibleIff(z, wall, FromUtc(z, t));
    }
    if |p| == 1 {
      PossibleIff(z, wall, o.local);
      assert forall t :: IsPreimage(z, t, wall) ==> FromUtc(z, t) == o.local;
    } else if |p| == 0 {
      assert p == {};
    } else {
      var before, after := Guess(z, wall, -DAY), Guess(z, wall, DAY);
      PossibleIff(z, wall, before);
      PossibleIff(z, wall, after);
      if before.Instant() == after.Instant() {
        PossibleDiffer(z, wall, before, after);
      }
      assert IsPreimage(z, before.Instant(), wall) && IsPreimage(z, after.Instant(), wall);
    }
  }

  /** What was localized without a hint comes back, and a unique UTC instant is found again. */
  lemma LocalizeFromUtc(z: Zone, t: int)
    requires IsSpaced(z)
    ensures var o := Localize(z, FromUtc(z, t).wall, None);
      o == Found(FromUtc(z, t)) || o.AmbiguousTimeError?
  {
    var wall := FromUtc(z, t).wall;
    LocalizeInverts(z, wall);
    assert IsPreimage(z, t, wall);
  }

  /** With a hint localize always returns, and the reading is the one that was given. */
  lemma {:induction false} LocalizeWithHint(z: Zone, wall: int, isDst: bool)
    requires IsSpaced(z)
    ensures var o := Localize(z, wall, Some(isDst));
      && o.Found? && o.local.wall == wall
      && ((exists t :: IsPreimage(z, t, wall)) ==> FromUtc(z, o.local.Instant()) == o.local)
    decreases ToGapEnd(z, wall, isDst)
  {
    var o, p := Localize(z, wall, Some(isDst)), Possible(z, wall);
    PossibleSize(z, wall);
    forall t ensures IsPreimage(z, t, wall) <==> FromUtc(z, t) in p {
      PossibleIff(z, wall, FromUtc(z, t));
    }
    if |p| == 0 {
      WindingEnds(z, wall);
      LocalizeWithHint(z, if isDst then wall + 6 * HOUR else wall - 6 * HOUR, isDst);
    } else {
      PossibleIff(z, wall, o.local);
    }
  }

  /** Of two instants with the same reading, the hint decides: the flag if it tells them apart, otherwise the order. */
  lemma {:induction false} HintDecides(z: Zone, t: int, u: int, wall: int, isDst: bool)
    requires IsSpaced(z) && t < u && IsPreimage(z, t, wall) && IsPreimage(z, u, wall)
    ensures Localize(z, wall, Some(isDst)) == Found(
      if Matches(FromUtc(z, t), isDst) == Matches(FromUtc(z, u), isDst) then FromUtc(z, if isDst then t else u)
      else if Matches(FromUtc(z, t), isDst) then FromUtc(z, t) else FromUtc(z, u))
  {
    PossibleSize(z, wall);
    PreimageIsGuessed(z, t, wall);
    PreimageIsGuessed(z, u, wall);
    var p := Possible(z, wall);
    var l, m := FromUtc(z, t), FromUtc(z, u);
    assert l.Instant() == t && m.Instant() == u;
    AtLeastTwo(p, l, m);
  }

  lemma AtLeastTwo(p: set<Local>, l: Local, m: Local)
    requires l in p && m in p && l != m
    ensures |p| >= 2
  {
    var q := p - {l};
    assert p == q + {l} && m in q;
  }

  function NextTry(wall: int, isDst: bool): int {
    if isDst then wall + 6 * HOUR else wall - 6 * HOUR
  }

  /** In a gap, localize is one winding away from itself, and winding comes to an end. */
  lemma {:induction false} OneTry(z: Zone, wall: int, isDst: bool)
    requires IsSpaced(z) && Possible(z, wall) == {}
    ensures Localize(z, wall, Some(isDst))
      == Wound(Localize(z, NextTry(wall, isDst), Some(isDst)), wall - NextTry(wall, isDst))
    ensures ToGapEnd(z, NextTry(wall, isDst), isDst) < ToGapEnd(z, wall, isDst)
  {
    hide Guess, Possible;
    WindingEnds(z, wall);
  }

  /** Winding either stays in the gap or gets to its other side. */
  lemma OutOfGap(z: Zone, wall: int, isDst: bool)
    requires IsSpaced(z) && Possible(z, wall) == {}
    ensures var next := NextTry(wall, isDst);
      if Possible(z, next) == {} then IndexAt(z, next + DAY) == IndexAt(z, wall + DAY)
      else if isDst then GapEnd(z, wall) <= next else next < GapStart(z, wall)
  {
    GapAround(z, wall);
    hide Possible;
    var next := NextTry(wall, isDst);
    assert Possible(z, if isDst then next else next + 6 * HOUR) == Possible(z, if isDst then wall + 6 * HOUR else wall);
    if Possible(z, next) == {} {
      StillSameGap(z, if isDst then wall else next);
      SameTransition(z, wall, next);
    } else if GapStart(z, wall) <= next < GapEnd(z, wall) {
      InGapNone(z, wall, next);
    }
  }

  /** No reading within the gap exists. */
  lemma InGapNone(z: Zone, wall: int, next: int)
    requires IsSpaced(z) && Possible(z, wall) == {} && GapStart(z, wall) <= next < GapEnd(z, wall)
    ensures Possible(z, next) == {}
  {
    GapAround(z, wall);
    var b := IndexAt(z, wall + DAY);
    if l :| l in Possible(z, next) {
      PossibleIff(z, next, l);
      hide Possible, Guess, IndexAt;
      var t := l.Instant();
      var i := IndexAt(z, t);
      assert l.info == z.infos[i];
      OffsetBound(z, i);
      OffsetBound(z, b);
      OffsetBound(z, b - 1);
      IndexIs(z, t, b);
      IndexIs(z, t, b - 1);
      IndexIs(z, t, i);
      NotFar(z, b, i);
    }
  }

  /** The first reading outside the gap, in steps of six hours. */
  function Outside(z: Zone, wall: int, isDst: bool): int
    requires IsZone(z)
  {
    if isDst then wall + (GapEnd(z, wall) - wall + 6 * HOUR - 1) / (6 * HOUR) * (6 * HOUR)
    else wall - ((wall - GapStart(z, wall)) / (6 * HOUR) + 1) * (6 * HOUR)
  }

  /** It is less than six hours away from the gap. */
  lemma OutsideIsNear(z: Zone, wall: int, isDst: bool)
    requires IsZone(z) && GapStart(z, wall) <= wall < GapEnd(z, wall)
    ensures var next := Outside(z, wall, isDst);
      if isDst then GapEnd(z, wall) <= next < GapEnd(z, wall) + 6 * HOUR
      else GapStart(z, wall) - 6 * HOUR <= next < GapStart(z, wall)
  {}

  /** One try in the gap leads to the same reading outside; a try that leaves the gap is there. */
  lemma OutsideStays(z: Zone, wall: int, isDst: bool)
    requires IsSpaced(z) && Possible(z, wall) == {}
    ensures var next := NextTry(wall, isDst);
      if Possible(z, next) == {} then Outside(z, next, isDst) == Outside(z, wall, isDst)
      else next == Outside(z, wall, isDst)
  {
    hide Possible, GapStart, GapEnd, IndexAt, IsSpaced;
    SpacedIsZone(z);
    GapAround(z, wall);
    OutOfGap(z, wall, isDst);
    var next := NextTry(wall, isDst);
    if Possible(z, next) == {} {
      GapAround(z, next);
      SameGap(z, wall, next);
      SixHoursLess(GapEnd(z, wall) - wall + 6 * HOUR - 1);
      SixHoursLess(wall - GapStart(z, wall));
    } else {
      OneTryOutside(z, wall, isDst);
    }
  }

  lemma SixHoursLess(d: int)
    ensures (d - 6 * HOUR) / (6 * HOUR) == d / (6 * HOUR) - 1
  {}

  lemma SameGap(z: Zone, wall: int, next: int)
    requires IsZone(z) && IndexAt(z, next + DAY) == IndexAt(z, wall + DAY)
    requires IndexAt(z, next - DAY) == IndexAt(z, wall - DAY)
    ensures GapStart(z, next) == GapStart(z, wall) && GapEnd(z, next) == GapEnd(z, wall)
  {}

  lemma OneTryOutside(z: Zone, wall: int, isDst: bool)
    requires IsZone(z) && GapStart(z, wall) <= wall < GapEnd(z, wall)
    requires var next := NextTry(wall, isDst); if isDst then GapEnd(z, wall) <= next else next < GapStart(z, wall)
    ensures NextTry(wall, isDst) == Outside(z, wall, isDst)
  {
    hide GapStart, GapEnd;
  }

  /** Winding ends at the first reading outside the gap, which exists. */
  lemma {:induction false} WindsOutside(z: Zone, wall: int, isDst: bool)
    requires IsSpaced(z) && Possible(z, wall) == {}
    ensures Possible(z, Outside(z, wall, isDst)) != {}
    ensures Localize(z, wall, Some(isDst))
      == Wound(Localize(z, Outside(z, wall, isDst), Some(isDst)), wall - Outside(z, wall, isDst))
    decreases ToGapEnd(z, wall, isDst)
  {
    hide Possible, Localize, ToGapEnd, Outside, Guess, IsSpaced;
    SpacedIsZone(z);
    OneTry(z, wall, isDst);
    OutsideStays(z, wall, isDst);
    if Possible(z, NextTry(wall, isDst)) == {} {
      WindsOutside(z, NextTry(wall, isDst), isDst);
    }
  }

  /** Entry `i` is in force at the instant that it gives the reading `wall`. */
  predicate Shows(z: Zone, i: nat, wall: int)
    requires IsZone(z)
  {
    && i < |z.times|
    && (i == 0 || z.times[i] + z.infos[i].utcoffset <= wall)
    && (i + 1 == |z.times| || wall < z.times[i + 1] + z.infos[i].utcoffset)
  }

  /** The possible times of a reading are those of the entries that show it. */
  lemma PossibleIsShown(z: Zone, wall: int, i: nat)
    requires IsSpaced(z) && i < |z.times|
    ensures Shows(z, i, wall) <==> IndexAt(z, wall - z.infos[i].utcoffset) == i
    ensures Shows(z, i, wall) ==> FromUtc(z, wall - z.infos[i].utcoffset) == Local(wall, z.infos[i])
  {
    var t := wall - z.infos[i].utcoffset;
    IndexIs(z, t, i);
    if i + 1 < |z.times| {
      IndexIs(z, t, i + 1);
    }
    hide IndexAt;
  }

  lemma ShownIndex(z: Zone, wall: int, l: Local) returns (i: nat)
    requires IsSpaced(z) && l in Possible(z, wall)
    ensures Shows(z, i, wall) && l == Local(wall, z.infos[i])
  {
    PossibleIff(z, wall, l);
    i := IndexAt(z, l.Instant());
    PossibleIsShown(z, wall, i);
  }

  /** Just after a gap only its transition's entry and the next one can show a reading. */
  lemma ShownAfter(z: Zone, wall: int, next: int, i: nat)
    requires IsSpaced(z) && Possible(z, wall) == {} && GapEnd(z, wall) <= next < GapEnd(z, wall) + 6 * HOUR
    requires i < |z.times|
    ensures var b := IndexAt(z, wall + DAY);
      Shows(z, i, next) <==> i == b || (i == b + 1 && z.times[i] + z.infos[i].utcoffset <= next)
  {
    GapAround(z, wall);
    hide Possible, Guess;
    var b := IndexAt(z, wall + DAY);
    OffsetBound(z, i);
    OffsetBound(z, b);
    OffsetBound(z, b - 1);
    FarApart(z, b, i);
    hide IndexAt;
  }

  /** Just before a gap only the entry before its transition and the one before that can. */
  lemma ShownBefore(z: Zone, wall: int, next: int, i: nat)
    requires IsSpaced(z) && Possible(z, wall) == {} && GapStart(z, wall) - 6 * HOUR <= next < GapStart(z, wall)
    requires i < |z.times|
    ensures var b := IndexAt(z, wall + DAY);
      && b > 0
      && (Shows(z, i, next) <==>
        i == b - 1 || (i + 2 == b && next < z.times[i + 1] + z.infos[i].utcoffset))
  {
    GapAround(z, wall);
    hide Possible, Guess;
    var b := IndexAt(z, wall + DAY);
    OffsetBound(z, i);
    OffsetBound(z, b);
    OffsetBound(z, b - 1);
    FarApart(z, b, i);
    hide IndexAt;
  }

  /** The transitions around `b` and around `i`, as far apart as they are in the list. */
  lemma FarApart(z: Zone, b: nat, i: nat)
    requires IsSpaced(z) && b < |z.times| && i < |z.times|
    ensures i + 1 < b ==> z.times[b] - z.times[i + 1] > 2 * DAY
    ensures i + 2 < b ==> z.times[b] - z.times[i + 1] > 4 * DAY
    ensures i < b ==> z.times[b] - z.times[i] > 2 * DAY
    ensures i + 2 == b ==> z.times[b] - z.times[i] > 4 * DAY
    ensures b < i ==> z.times[i] - z.times[b] > 2 * DAY
    ensures b + 1 < i ==> z.times[i] - z.times[b] > 4 * DAY
    ensures i == b + 1 && i + 1 < |z.times| ==> z.times[i + 1] - z.times[b] > 4 * DAY
    ensures i == b && i + 1 < |z.times| ==> z.times[i + 1] - z.times[b] > 2 * DAY
  {
    if i + 2 < b {
      assert z.times[b] - z.times[i + 2] > 2 * DAY && z.times[i + 2] - z.times[i + 1] > 2 * DAY;
    }
    if i + 2 == b {
      assert z.times[b] - z.times[i + 1] > 2 * DAY && z.times[i + 1] - z.times[i] > 2 * DAY;
    }
    if b + 1 < i {
      assert z.times[i] - z.times[b + 1] > 2 * DAY && z.times[b + 1] - z.times[b] > 2 * DAY;
    }
  }

  /** The reading outside the gap is ambiguous, and the hint prefers the entry farther away. */
  predicate Misled(z: Zone, wall: int, isDst: bool)
    requires IsZone(z)
  {
    var b, next := IndexAt(z, wall + DAY), Outside(z, wall, isDst);
    if isDst then
      && b + 1 < |z.times| && next >= z.times[b + 1] + z.infos[b + 1].utcoffset
      && z.infos[b + 1].dst != 0 && z.infos[b].dst == 0
    else
      && b >= 2 && next < z.times[b - 1] + z.infos[b - 2].utcoffset
      && z.infos[b - 2].dst == 0 && z.infos[b - 1].dst != 0
  }

  /** The entry whose zone a reading in a gap gets. */
  function Chosen(z: Zone, wall: int, isDst: bool): int
    requires IsZone(z)
  {
    var b := IndexAt(z, wall + DAY);
    if isDst then (if Misled(z, wall, isDst) then b + 1 else b)
    else if Misled(z, wall, isDst) then b - 2 else b - 1
  }

  /** A reading that one entry shows is localized by it. */
  lemma OneShown(z: Zone, wall: int, isDst: bool, i: nat)
    requires IsSpaced(z) && Shows(z, i, wall) && forall k: nat :: Shows(z, k, wall) ==> k == i
    ensures Localize(z, wall, Some(isDst)) == Found(Local(wall, z.infos[i]))
  {
    PossibleIsShown(z, wall, i);
    PreimageIsGuessed(z, wall - z.infos[i].utcoffset, wall);
    PossibleSize(z, wall);
    var p, l := Possible(z, wall), Local(wall, z.infos[i]);
    forall m | m in p ensures m == l {
      var k := ShownIndex(z, wall, m);
    }
    assert p == {l};
  }

  /** Of two entries that show a reading, the hint decides. */
  lemma TwoShown(z: Zone, wall: int, isDst: bool, i: nat)
    requires IsSpaced(z) && Shows(z, i, wall) && Shows(z, i + 1, wall)
    ensures Localize(z, wall, Some(isDst)) == Found(Local(wall, z.infos[
      if (z.infos[i].dst != 0) == (z.infos[i + 1].dst != 0) then (if isDst then i else i + 1)
      else if (z.infos[i].dst != 0) == isDst then i else i + 1]))
  {
    hide IsSpaced, Localize;
    SpacedIsZone(z);
    PossibleIsShown(z, wall, i);
    PossibleIsShown(z, wall, i + 1);
    var t, u := wall - z.infos[i].utcoffset, wall - z.infos[i + 1].utcoffset;
    IndexIs(z, t, i + 1);
    IndexIs(z, u, i + 1);
    HintDecides(z, t, u, wall, isDst);
  }

  /** What a reading in a gap gets, for every zone and either hint. */
  lemma HintInGapIs(z: Zone, wall: int, isDst: bool)
    requires IsSpaced(z) && Possible(z, wall) == {}
    ensures 0 <= Chosen(z, wall, isDst) < |z.infos|
    ensures Localize(z, wall, Some(isDst)) == Found(Local(wall, z.infos[Chosen(z, wall, isDst)]))
  {
    hide Possible, Localize, Guess, IndexAt, ToGapEnd;
    GapAround(z, wall);
    OutsideIsNear(z, wall, isDst);
    WindsOutside(z, wall, isDst);
    var next := Outside(z, wall, isDst);
    hide Outside;
    if isDst {
      AfterGap(z, wall, next);
    } else {
      BeforeGap(z, wall, next);
    }
  }

  lemma AfterGap(z: Zone, wall: int, next: int)
    requires IsSpaced(z) && Possible(z, wall) == {}
    requires next == Outside(z, wall, true) && GapEnd(z, wall) <= next < GapEnd(z, wall) + 6 * HOUR
    ensures 0 <= Chosen(z, wall, true) < |z.infos|
    ensures Localize(z, next, Some(true)) == Found(Local(next, z.infos[Chosen(z, wall, true)]))
  {
    hide Possible, Localize, Guess, IndexAt, Outside, Shows;
    var b := IndexAt(z, wall + DAY);
    forall k: nat | k < |z.times|
      ensures Shows(z, k, next) <==> k == b || (k == b + 1 && z.times[k] + z.infos[k].utcoffset <= next)
    {
      ShownAfter(z, wall, next, k);
    }
    ShownInRange(z, next);
    if b + 1 < |z.times| && z.times[b + 1] + z.infos[b + 1].utcoffset <= next {
      TwoShown(z, next, true, b);
    } else {
      OneShown(z, next, true, b);
    }
  }

  lemma BeforeGap(z: Zone, wall: int, next: int)
    requires IsSpaced(z) && Possible(z, wall) == {}
    requires next == Outside(z, wall, false) && GapStart(z, wall) - 6 * HOUR <= next < GapStart(z, wall)
    ensures 0 <= Chosen(z, wall, false) < |z.infos|
    ensures Localize(z, next, Some(false)) == Found(Local(next, z.infos[Chosen(z, wall, false)]))
  {
    hide Possible, Localize, Guess, IndexAt, Outside, Shows;
    var b := IndexAt(z, wall + DAY);
    GapAround(z, wall);
    forall k: nat | k < |z.times|
      ensures Shows(z, k, next) <==> k == b - 1 || (k + 2 == b && next < z.times[k + 1] + z.infos[k].utcoffset)
    {
      ShownBefore(z, wall, next, k);
    }
    ShownInRange(z, next);
    if b >= 2 && next < z.times[b - 1] + z.infos[b - 2].utcoffset {
      TwoShown(z, next, false, b - 2);
    } else {
      OneShown(z, next, false, b - 1);
    }
  }

  lemma ShownInRange(z: Zone, wall: int)
    requires IsZone(z)
    ensures forall k: nat :: Shows(z, k, wall) ==> k < |z.times|
  {}

  /**
    With a hint a reading in the gap of a transition gets the zone after it for `isDst`, and
    the zone before it otherwise, if and only if the reading outside the gap does not mislead.
   */
  lemma HintInGapIff(z: Zone, wall: int, isDst: bool)
    requires IsSpaced(z) && Possible(z, wall) == {}
    ensures var b := IndexAt(z, wall + DAY);
      && b > 0 && z.times[b] + z.infos[b - 1].utcoffset <= wall < z.times[b] + z.infos[b].utcoffset
      && (Localize(z, wall, Some(isDst)) == Found(Local(wall, z.infos[if isDst then b else b - 1]))
        <==> !Misled(z, wall, isDst))
  {
    hide Possible, Localize, Guess, IndexAt, Outside;
    GapAround(z, wall);
    HintInGapIs(z, wall, isDst);
  }

  /** Offsets of at most 21 hours, as all zones of the database have. */
  predicate IsNear(z: Zone) {
    forall i :: 0 <= i < |z.infos| ==> -21 * HOUR <= z.infos[i].utcoffset <= 21 * HOUR
  }

  /** With such offsets a hint never misleads. */
  lemma HintInGap(z: Zone, wall: int, isDst: bool)
    requires IsSpaced(z) && IsNear(z) && Possible(z, wall) == {}
    ensures var b := IndexAt(z, wall + DAY);
      b > 0 && Localize(z, wall, Some(isDst)) == Found(Local(wall, z.infos[if isDst then b else b - 1]))
  {
    hide Possible, Localize, Guess, IndexAt, Outside;
    GapAround(z, wall);
    OutsideIsNear(z, wall, isDst);
    HintInGapIff(z, wall, isDst);
  }

  /** A zone whose clock jumps by 23 hours, and back by 46 two days and a second later. */
  function FarZone(): Zone {
    Zone([0, 10 * DAY, 12 * DAY + 1], [Info(0, 0, ""), Info(23 * HOUR, 0, ""), Info(-23 * HOUR, HOUR, "")])
  }

  /** One whose clock jumps back by 46 hours first. */
  function FarBackZone(): Zone {
    Zone([0, 10 * DAY, 12 * DAY + 1], [Info(23 * HOUR, 0, ""), Info(-23 * HOUR, HOUR, ""), Info(0, 0, "")])
  }

  lemma FarIndex(z: Zone, t: int)
    requires z == FarZone() || z == FarBackZone()
    ensures IsSpaced(z) && IndexAt(z, t) == if t < 10 * DAY then 0 else if t < 12 * DAY + 1 then 1 else 2
  {
    IndexIs(z, t, 1);
    IndexIs(z, t, 2);
  }

  /** The last second of a gap gets neither zone beside it, but the one after them. */
  lemma HintInFarGap()
    ensures var z, wall := FarZone(), 10 * DAY + 23 * HOUR - 1;
      && IsSpaced(z) && Possible(z, wall) == {} && IndexAt(z, wall + DAY) == 1
      && Misled(z, wall, true) && Localize(z, wall, Some(true)) == Found(Local(wall, z.infos[2]))
  {
    hide IndexAt, Localize;
    var z, wall := FarZone(), 10 * DAY + 23 * HOUR - 1;
    FarIndex(z, wall - DAY);
    FarIndex(z, wall + DAY);
    FarIndex(z, wall);
    FarIndex(z, wall - 23 * HOUR);
    HintInGapIs(z, wall, true);
  }

  /** With the other hint the first second of a gap gets the one before them. */
  lemma HintInFarBackGap()
    ensures var z, wall := FarBackZone(), 12 * DAY + 1 - 23 * HOUR;
      && IsSpaced(z) && Possible(z, wall) == {} && IndexAt(z, wall + DAY) == 2
      && Misled(z, wall, false) && Localize(z, wall, Some(false)) == Found(Local(wall, z.infos[0]))
  {
    hide IndexAt, Localize;
    var z, wall := FarBackZone(), 12 * DAY + 1 - 23 * HOUR;
    FarIndex(z, wall - DAY);
    FarIndex(z, wall + DAY);
    FarIndex(z, wall);
    FarIndex(z, wall + 23 * HOUR);
    HintInGapIs(z, wall, false);
  }
}
