/**
  The scheduler of multithread/multithread-richards.py with the task set of Richards.run.
  Tasks are numbered by their identifiers 1 to 6 and packets 0 to 7; an object's fields are
  sequences indexed by these numbers. A task's list of packets starts at a head field and
  goes on through the packets' `link` fields, as in the source.
 */
module Richards {

  import opened Sorting

  const IDLE: nat := 1
  const WORK: nat := 2
  const HANDLERA: nat := 3
  const HANDLERB: nat := 4
  const DEVA: nat := 5
  const DEVB: nat := 6

  const BUFSIZE: nat := 4

  /** No packet, or no task. */
  const NONE: int := -1

  predicate IsTask(t: nat) {
    1 <= t <= 6
  }

  predicate IsHandler(t: nat) {
    t == HANDLERA || t == HANDLERB
  }

  predicate IsDevice(t: nat) {
    t == DEVA || t == DEVB
  }

  /** The fields that can hold packets: a task's input, a handler's two lists, a device's pending packet. */
  datatype Place = Input(t: nat) | WorkIn(t: nat) | DeviceIn(t: nat) | Pending(t: nat) | Hand

  predicate IsPlace(pl: Place) {
    match pl
    case Input(t) => IsTask(t)
    case WorkIn(t) => IsHandler(t)
    case DeviceIn(t) => IsHandler(t)
    case Pending(t) => IsDevice(t)
    case Hand => false
  }

  type Lists = map<Place, seq<nat>>

  /** The lists with packet `p` at the end of one of them. */
  function With(lists: Lists, pl: Place, p: nat): Lists {
    if pl in lists then lists[pl := lists[pl] + [p]] else lists
  }

  /** The lists without the first packet of one of them. */
  function Without(lists: Lists, pl: Place): Lists {
    if pl in lists && lists[pl] != [] then lists[pl := lists[pl][1..]] else lists
  }

  /** `h` is the head and `link` the continuation of the list `s`. */
  predicate Chain(link: seq<int>, h: int, s: seq<nat>) {
    && |link| == 8
    && Small(s)
    && (if s == [] then h == NONE else h == s[0] && link[s[|s| - 1]] == NONE)
    && (forall k :: 0 <= k < |s| - 1 ==> link[s[k]] == s[k + 1])
  }

  predicate Small(s: seq<nat>) {
    forall k :: 0 <= k < |s| ==> s[k] < 8
  }

  /** Every packet is in exactly one place, once; one may be in the hand of the running task. */
  ghost predicate Placed(lists: Lists, place: seq<Place>) {
    && |place| == 8
    && (forall pl :: IsPlace(pl) ==> pl in lists && Distinct(lists[pl]) && Small(lists[pl]))
    && (forall p: nat, pl :: p < 8 && IsPlace(pl) ==> (p in lists[pl] <==> place[p] == pl))
    && (forall p: nat :: p < 8 ==> IsPlace(place[p]) || place[p] == Hand)
  }

  /** The heads and links represent the lists; a pending packet has no continuation. */
  ghost predicate Represented(first: map<Place, int>, link: seq<int>, lists: Lists) {
    forall pl :: IsPlace(pl) ==>
      pl in first && pl in lists && RepresentedAt(first[pl], link, pl, lists[pl])
  }

  predicate RepresentedAt(h: int, link: seq<int>, pl: Place, s: seq<nat>) {
    if pl.Pending? then |s| <= 1 && h == (if s == [] then NONE else s[0]) else Chain(link, h, s)
  }

  // ---------------------------------------------------------------------
  // Lists
  // ---------------------------------------------------------------------

  /** Taking the first packet of a list into the hand. */
  lemma TakeFirst(lists: Lists, place: seq<Place>, pl: Place)
    requires Placed(lists, place) && IsPlace(pl) && lists[pl] != []
    requires forall p: nat :: p < 8 ==> place[p] != Hand
    ensures lists[pl][0] < 8
    ensures Placed(lists[pl := lists[pl][1..]], place[lists[pl][0] := Hand])
  {
    var s := lists[pl];
    var p := s[0];
    var rest := s[1..];
    assert p in s && s == [p] + rest;
    assert Distinct(rest) && Small(rest) by {
      assert forall k :: 0 <= k < |rest| ==> rest[k] == s[k + 1];
    }
    assert p !in rest;
    var lists', place' := lists[pl := rest], place[p := Hand];
    forall q: nat, other | q < 8 && IsPlace(other) ensures q in lists'[other] <==> place'[q] == other {
      assert q in lists[other] <==> place[q] == other;
    }
  }

  /** Putting the packet from the hand at the end of a list. */
  lemma PutLast(lists: Lists, place: seq<Place>, pl: Place, p: nat)
    requires Placed(lists, place) && IsPlace(pl) && p < 8 && place[p] == Hand
    ensures Placed(lists[pl := lists[pl] + [p]], place[p := pl])
  {
    var s := lists[pl];
    assert p !in s;
    var more := s + [p];
    forall q: nat | q < 8 ensures q in more <==> q in s || q == p {
    }
  }

  /** The head moves to the second packet. */
  lemma ChainRest(link: seq<int>, h: int, s: seq<nat>)
    requires Chain(link, h, s) && s != []
    ensures 0 <= h < 8 && h == s[0] && Chain(link, link[h], s[1..])
  {
    if |s| > 1 {
      assert link[s[0]] == s[1];
      assert s[1..][|s| - 2] == s[|s| - 1];
    }
  }

  lemma ChainEnds(link: seq<int>, h: int, s: seq<nat>)
    requires Chain(link, h, s)
    ensures h == NONE <==> s == []
  {}

  /** A list does not notice a change of the link of a packet elsewhere. */
  lemma ChainElsewhere(link: seq<int>, h: int, s: seq<nat>, p: nat, x: int)
    requires Chain(link, h, s) && p < 8 && p !in s
    ensures Chain(link[p := x], h, s)
  {
    forall k | 0 <= k < |s| ensures s[k] != p {
      var q := s[k];
      assert q in s;
    }
  }

  /** A packet without continuation is linked behind the last one. */
  lemma ChainLonger(link: seq<int>, h: int, s: seq<nat>, p: nat)
    requires Chain(link, h, s) && Distinct(s) && p < 8 && p !in s && link[p] == NONE
    ensures s != [] ==> Chain(link[s[|s| - 1] := p], h, s + [p])
    ensures s == [] ==> Chain(link, p, s + [p])
  {
    if s != [] {
      var last := s[|s| - 1];
      assert last in s && last != p;
    }
  }

  // ---------------------------------------------------------------------
  // What packets are where
  // ---------------------------------------------------------------------

  predicate IsWork(p: nat) {
    p < 2
  }

  /** The handler and the device between which a device packet goes. */
  function HandlerOf(p: nat): nat {
    if p < 5 then HANDLERA else HANDLERB
  }

  function DeviceOf(p: nat): nat {
    if p < 5 then DEVA else DEVB
  }

  /** A packet's identifier says where it has to go next. */
  predicate Proper(p: nat, pl: Place, ident: nat, datum: nat) {
    || pl == Hand
    || (IsWork(p) && (
          || pl == Input(WORK)
          || ((pl.Input? || pl.WorkIn?) && IsHandler(pl.t) && ident == WORK && datum <= BUFSIZE)))
    || (!IsWork(p) && (
          || ((pl == Input(HandlerOf(p)) || pl == DeviceIn(HandlerOf(p))) && ident == DeviceOf(p))
          || ((pl == Input(DeviceOf(p)) || pl == Pending(DeviceOf(p))) && ident == HandlerOf(p))))
  }

  /** Priorities grow with the identifiers. */
  function Priority(t: nat): nat {
    if t <= IDLE then 0 else (t - 1) * 1000
  }

  /** The task list has the tasks in the opposite order of their creation. */
  function NextTask(t: nat): nat
    requires IsTask(t)
  {
    t - 1
  }

  // ---------------------------------------------------------------------
  // Why scheduling ends
  // ---------------------------------------------------------------------

  /**
    The moves that a packet can still make before the idle task runs again. A device packet
    stops as the pending packet of a holding device. A work packet with a full buffer
    can go round to the next handler; it is filled again at the cost of device packets.
   */
  function Weight(p: nat, pl: Place, datum: nat, holding: seq<bool>): nat
    requires |holding| == 7
  {
    if IsWork(p) then
      if pl == Input(WORK) then 2
      else if pl == Hand then 0
      else (if datum >= BUFSIZE then 3 else 0) + (if pl.Input? then 1 else 0)
    else
      match pl
      case Input(t) => if IsDevice(t) then 12 else 20
      case DeviceIn(t) => 16
      case Pending(t) => if t < 7 && holding[t] then 0 else 24
      case WorkIn(t) => 0
      case Hand => 0
  }

  function Potential(place: seq<Place>, datum: seq<nat>, holding: seq<bool>, n: nat): nat
    requires n <= |place| && n <= |datum| && |holding| == 7
  {
    if n == 0 then 0 else Potential(place, datum, holding, n - 1) + Weight(n - 1, place[n - 1], datum[n - 1], holding)
  }

  /** One packet moves; the weights of the others stay. */
  lemma {:induction false} PotentialMoves(place: seq<Place>, place': seq<Place>, datum: seq<nat>, datum': seq<nat>,
    holding: seq<bool>, holding': seq<bool>, p: nat, n: nat)
    requires |holding| == |holding'| == 7 && n <= |place| == |place'| && n <= |datum| == |datum'|
    requires p < |place| && p < |datum|
    requires forall q: nat :: q < n && q != p ==>
      Weight(q, place[q], datum[q], holding) == Weight(q, place'[q], datum'[q], holding')
    ensures Potential(place', datum', holding', n) == Potential(place, datum, holding, n)
      + (if p < n then Weight(p, place'[p], datum'[p], holding') - Weight(p, place[p], datum[p], holding) else 0)
  {
    if n > 0 {
      PotentialMoves(place, place', datum, datum', holding, holding', p, n - 1);
    }
  }

  lemma PacketMoves(place: seq<Place>, datum: seq<nat>, holding: seq<bool>, p: nat, pl: Place)
    requires |holding| == 7 && |place| == |datum| == 8 && p < 8
    ensures Potential(place[p := pl], datum, holding, 8)
      == Potential(place, datum, holding, 8) + Weight(p, pl, datum[p], holding) - Weight(p, place[p], datum[p], holding)
  {
    PotentialMoves(place, place[p := pl], datum, datum, holding, holding, p, 8);
  }

  /** One more character in a work packet's buffer weighs three at most; a device packet's own datum does not count. */
  lemma {:induction false} BufferFills(place: seq<Place>, datum: seq<nat>, datum': seq<nat>, holding: seq<bool>,
      d: nat, work: nat)
    requires |holding| == 7 && |place| == |datum| == |datum'| == 8 && d < 8 && work < 8 && !IsWork(d) && IsWork(work)
    requires place[work].WorkIn? && place[d] == Hand
    requires forall q :: 0 <= q < 8 && q != d && q != work ==> datum'[q] == datum[q]
    ensures Potential(place, datum', holding, 8) <= Potential(place, datum, holding, 8) + 3
  {
    PotentialMoves(place, place, datum, datum', holding, holding, work, 8);
  }

  /** The packet that a device keeps weighs nothing once the device is holding. */
  lemma HeldBack(place: seq<Place>, place': seq<Place>, datum: seq<nat>, holding: seq<bool>, t: nat, p: nat)
    requires |holding| == 7 && |place| == |datum| == 8 && p < 8 && IsDevice(t) && !IsWork(p)
    requires place[p] == Hand && place' == place[p := Pending(t)]
    requires forall q: nat :: q < 8 && q != p ==> place'[q] != Pending(t)
    ensures Potential(place', datum, holding[t := true], 8) == Potential(place, datum, holding, 8)
  {
    PotentialMoves(place, place', datum, datum, holding, holding[t := true], p, 8);
  }

  /** The tasks below `n` that are not waiting. */
  function Awake(waiting: seq<bool>, n: nat): nat
    requires n <= |waiting|
  {
    if n == 0 then 0 else Awake(waiting, n - 1) + (if waiting[n - 1] then 0 else 1)
  }

  lemma {:induction false} OneFallsAsleep(waiting: seq<bool>, t: nat, n: nat)
    requires t < |waiting| && n <= |waiting| && !waiting[t]
    ensures Awake(waiting[t := true], n) == Awake(waiting, n) - (if t < n then 1 else 0)
  {
    if n > 0 {
      OneFallsAsleep(waiting, t, n - 1);
    }
  }

  // ---------------------------------------------------------------------
  // The task set of Richards.run
  // ---------------------------------------------------------------------

  /** The packets that the tasks start with; the last one made is first in its list. */
  function StartList(pl: Place): seq<nat> {
    if pl == Input(WORK) then [1, 0]
    else if pl == Input(HANDLERA) then [4, 3, 2]
    else if pl == Input(HANDLERB) then [7, 6, 5]
    else []
  }

  const ALL_PLACES: set<Place> :=
    {Input(1), Input(2), Input(3), Input(4), Input(5), Input(6),
     WorkIn(3), WorkIn(4), DeviceIn(3), DeviceIn(4), Pending(5), Pending(6)}

  const START_LINK: seq<int> := [NONE, 0, NONE, 2, 3, NONE, 5, 6]

  const START_PLACE: seq<Place> :=
    [Input(WORK), Input(WORK), Input(HANDLERA), Input(HANDLERA), Input(HANDLERA), Input(HANDLERB), Input(HANDLERB),
      Input(HANDLERB)]

  const START_IDENT: seq<nat> := [0, 0, DEVA, DEVA, DEVA, DEVB, DEVB, DEVB]

  function StartLists(): Lists {
    map pl | pl in ALL_PLACES :: StartList(pl)
  }

  function StartFirst(): map<Place, int> {
    map pl | pl in ALL_PLACES :: if StartList(pl) == [] then NONE else StartList(pl)[0] as int
  }

  lemma PlacesAre(pl: Place)
    ensures IsPlace(pl) <==> pl in ALL_PLACES
  {}

  lemma StartListIsProper(pl: Place)
    ensures Distinct(StartList(pl)) && Small(StartList(pl))
  {}

  lemma StartIsPlaced()
    ensures Placed(StartLists(), START_PLACE)
  {
    forall pl | IsPlace(pl) ensures pl in StartLists() && Distinct(StartLists()[pl]) && Small(StartLists()[pl]) {
      PlacesAre(pl);
      StartListIsProper(pl);
    }
    forall p: nat, pl | p < 8 && IsPlace(pl) ensures p in StartLists()[pl] <==> START_PLACE[p] == pl {
      PlacesAre(pl);
    }
  }

  lemma StartIsRepresented()
    ensures Represented(StartFirst(), START_LINK, StartLists())
  {
    forall pl | IsPlace(pl)
      ensures pl in StartFirst() && pl in StartLists()
        && RepresentedAt(StartFirst()[pl], START_LINK, pl, StartLists()[pl]) {
      PlacesAre(pl);
    }
  }

  lemma StartInputs()
    ensures forall t: nat :: IsTask(t) ==> Input(t) in StartLists() && (StartLists()[Input(t)] != [] <==> 2 <= t <= 4)
    ensures forall t: nat :: IsDevice(t) ==> Pending(t) in StartLists() && StartLists()[Pending(t)] == []
    ensures |START_PLACE| == 8 && forall p :: 0 <= p < 8 ==> START_PLACE[p] != Hand
  {
    forall t: nat | IsTask(t) ensures Input(t) in StartLists() && (StartLists()[Input(t)] != [] <==> 2 <= t <= 4) {
      PlacesAre(Input(t));
    }
    forall t: nat | IsDevice(t) ensures Pending(t) in StartLists() && StartLists()[Pending(t)] == [] {
      PlacesAre(Pending(t));
    }
  }

  /** No handler has work yet. */
  lemma StartLetters()
    ensures forall h: nat, data, datum :: IsHandler(h) ==> InOrder(h, StartLists(), data, datum, [], 0, [])
  {
    forall h: nat, data, datum | IsHandler(h) ensures InOrder(h, StartLists(), data, datum, [], 0, []) {
      PlacesAre(WorkIn(h));
      PlacesAre(Input(h));
      var s := StartList(Input(h));
      NoWorkNoLetters(s, data, datum);
    }
  }

  lemma {:induction false} NoWorkNoLetters(s: seq<nat>, data: seq<seq<nat>>, datum: seq<nat>)
    requires forall k :: 0 <= k < |s| ==> !IsWork(s[k])
    ensures UnreadIn(s, data, datum) == []
  {
    if s != [] {
      NoWorkNoLetters(s[1..], data, datum);
    }
  }

  lemma StartIsProper(p: nat)
    requires p < 8
    ensures Proper(p, START_PLACE[p], START_IDENT[p], 0)
  {}

  // ---------------------------------------------------------------------
  // The letters
  // ---------------------------------------------------------------------

  /** The letters, numbered in the order in which the worker writes them. */
  function Letter(i: nat): nat {
    'A' as nat + i % 26
  }

  /** What the worker's counter is after `i` letters. */
  function CountAt(i: nat): nat {
    if i == 0 then 0 else (i - 1) % 26 + 1
  }

  lemma CountGoesOn(i: nat)
    ensures CountAt(i + 1) == if CountAt(i) + 1 > 26 then 1 else CountAt(i) + 1
    ensures Letter(i) == 'A' as nat + CountAt(i + 1) - 1
  {}

  lemma LetterAfter(i: nat, k: nat)
    ensures Letter(i + k) == 'A' as nat + (CountAt(i) + k) % 26
  {}

  /** The four letters that follow when the counter is `c`. */
  function LettersFrom(c: nat): (r: seq<nat>)
    ensures |r| == BUFSIZE
  {
    seq(BUFSIZE, k requires 0 <= k < BUFSIZE => 'A' as nat + (c + k) % 26)
  }

  lemma LettersFollow(n: nat)
    ensures LettersOf(n) == LettersFrom(CountAt(4 * n))
  {
    LetterAfter(4 * n, 0);
    LetterAfter(4 * n, 1);
    LetterAfter(4 * n, 2);
    LetterAfter(4 * n, 3);
  }

  /** The contents of the packet that the worker sends after `n` others. */
  function LettersOf(n: nat): (r: seq<nat>)
    ensures |r| == BUFSIZE
  {
    [Letter(4 * n), Letter(4 * n + 1), Letter(4 * n + 2), Letter(4 * n + 3)]
  }

  /** The handler that gets this packet: they take turns, the second one first. */
  function Receiver(n: nat): nat {
    if n % 2 == 0 then HANDLERB else HANDLERA
  }

  function OtherHandler(h: nat): nat {
    if h == HANDLERA then HANDLERB else HANDLERA
  }

  lemma TurnsAlternate(n: nat)
    ensures Receiver(n + 2) == Receiver(n) == OtherHandler(Receiver(n + 1)) && IsHandler(Receiver(n))
  {}

  /** How many of the first `n` packets handler `h` gets. */
  function Share(h: nat, n: nat): nat {
    if n == 0 then 0 else Share(h, n - 1) + (if Receiver(n - 1) == h then 1 else 0)
  }

  /** The two handlers' shares differ by one at most. */
  lemma {:induction false} SharesAreEven(n: nat)
    ensures Share(HANDLERA, n) + Share(HANDLERB, n) == n
    ensures Share(HANDLERB, n) - Share(HANDLERA, n) == n % 2
  {
    if n > 0 {
      SharesAreEven(n - 1);
    }
  }

  /** All the letters in the first `n` packets that are for handler `h`. */
  function LettersFor(h: nat, n: nat): seq<nat> {
    if n == 0 then [] else LettersFor(h, n - 1) + (if Receiver(n - 1) == h then LettersOf(n - 1) else [])
  }

  lemma {:induction false} LettersForShare(h: nat, n: nat)
    ensures |LettersFor(h, n)| == BUFSIZE * Share(h, n)
  {
    if n > 0 {
      LettersForShare(h, n - 1);
    }
  }

  /** The letters of a work packet that no device has got yet. */
  function Unread(p: nat, data: seq<seq<nat>>, datum: seq<nat>): seq<nat> {
    if IsWork(p) && p < |data| && p < |datum| && datum[p] <= |data[p]| then data[p][datum[p]..] else []
  }

  function UnreadIn(s: seq<nat>, data: seq<seq<nat>>, datum: seq<nat>): seq<nat> {
    if s == [] then [] else Unread(s[0], data, datum) + UnreadIn(s[1..], data, datum)
  }

  lemma {:induction false} UnreadLonger(s: seq<nat>, p: nat, data: seq<seq<nat>>, datum: seq<nat>)
    ensures UnreadIn(s + [p], data, datum) == UnreadIn(s, data, datum) + Unread(p, data, datum)
  {
    if s == [] {
      assert (s + [p])[1..] == [];
    } else {
      assert (s + [p])[1..] == s[1..] + [p];
      UnreadLonger(s[1..], p, data, datum);
    }
  }

  lemma {:induction false} UnreadSame(s: seq<nat>, data: seq<seq<nat>>, datum: seq<nat>,
      data': seq<seq<nat>>, datum': seq<nat>)
    requires forall k :: 0 <= k < |s| ==> Unread(s[k], data, datum) == Unread(s[k], data', datum')
    ensures UnreadIn(s, data, datum) == UnreadIn(s, data', datum')
  {
    if s != [] {
      UnreadSame(s[1..], data, datum, data', datum');
    }
  }

  /** The packet in the hand of task `t` comes between the lists of that task. */
  function InHand(h: nat, t: nat, hand: int): seq<nat> {
    if h == t && 0 <= hand then [hand as nat] else []
  }

  /**
    Handler `h` has passed on the letters that were sent to it, in the order in which they
    were written, except those that are still in its lists.
   */
  predicate InOrder(h: nat, lists: Lists, data: seq<seq<nat>>, datum: seq<nat>, passed: seq<nat>, n: nat,
      hand: seq<nat>)
  {
    && WorkIn(h) in lists && Input(h) in lists
    && LettersFor(h, n) == passed + UnreadIn(lists[WorkIn(h)], data, datum) + UnreadIn(hand, data, datum)
      + UnreadIn(lists[Input(h)], data, datum)
  }

  /** Taking a packet from the input into the hand. */
  lemma OrderTaken(h: nat, lists: Lists, data: seq<seq<nat>>, datum: seq<nat>, passed: seq<nat>, n: nat, t: nat)
    requires InOrder(h, lists, data, datum, passed, n, []) && Input(t) in lists && lists[Input(t)] != []
    ensures InOrder(h, Without(lists, Input(t)), data, datum, passed, n,
      InHand(h, t, lists[Input(t)][0]))
  {
    hide LettersFor, Unread;
    UnreadOne(lists[Input(t)][0], data, datum);
  }

  /** A packet goes from the hand to one of the handler's lists. */
  lemma OrderCollected(h: nat, lists: Lists, data: seq<seq<nat>>, datum: seq<nat>, passed: seq<nat>, n: nat,
      t: nat, p: nat)
    requires InOrder(h, lists, data, datum, passed, n, InHand(h, t, p)) && WorkIn(t) in lists && DeviceIn(t) in lists
    ensures var pl := if IsWork(p) then WorkIn(t) else DeviceIn(t);
      InOrder(h, With(lists, pl, p), data, datum, passed, n, [])
  {
    hide LettersFor, Unread, UnreadIn;
    UnreadOne(p, data, datum);
    if h == t {
      UnreadLonger(lists[WorkIn(t)], p, data, datum);
    }
  }

  lemma UnreadOne(p: nat, data: seq<seq<nat>>, datum: seq<nat>)
    ensures UnreadIn([p], data, datum) == Unread(p, data, datum) && UnreadIn([], data, datum) == []
    ensures !IsWork(p) ==> Unread(p, data, datum) == []
  {
    assert [p][1..] == [];
  }

  /** Packets without unread letters come and go; `p` is put at the end of an input. */
  lemma OrderKept(h: nat, lists: Lists, lists': Lists, data: seq<seq<nat>>, datum: seq<nat>, passed: seq<nat>, n: nat,
      hand: seq<nat>, p: nat)
    requires InOrder(h, lists, data, datum, passed, n, hand) && WorkIn(h) in lists' && Input(h) in lists'
    requires UnreadIn(hand, data, datum) == []
    requires Unread(p, data, datum) == [] || lists'[Input(h)] == lists[Input(h)]
    requires lists'[Input(h)] == lists[Input(h)] || lists'[Input(h)] == lists[Input(h)] + [p]
    requires
      || lists'[WorkIn(h)] == lists[WorkIn(h)]
      || (Unread(p, data, datum) == [] && lists[WorkIn(h)] == [p] + lists'[WorkIn(h)])
    ensures InOrder(h, lists', data, datum, passed, n, [])
  {
    hide LettersFor, Unread;
    UnreadLonger(lists[Input(h)], p, data, datum);
    assert ([p] + lists'[WorkIn(h)])[1..] == lists'[WorkIn(h)];
  }

  /** The first letter of the first work packet is passed on. */
  lemma OrderPassed(h: nat, lists: Lists, data: seq<seq<nat>>, datum: seq<nat>, datum': seq<nat>, passed: seq<nat>,
      n: nat, w: nat)
    requires InOrder(h, lists, data, datum, passed, n, [])
    requires IsWork(w) && lists[WorkIn(h)] != [] && lists[WorkIn(h)][0] == w && w !in lists[Input(h)]
    requires w !in lists[WorkIn(h)][1..]
    requires w < |data| && w < |datum| == |datum'| && datum[w] < |data[w]| && datum'[w] == datum[w] + 1
    requires forall q: nat :: q < |datum| && IsWork(q) && q != w ==> datum'[q] == datum[q]
    ensures InOrder(h, lists, data, datum', passed + [data[w][datum[w]]], n, [])
  {
    hide LettersFor;
    var s := lists[WorkIn(h)];
    UnreadSame(s[1..], data, datum, data, datum');
    UnreadSame(lists[Input(h)], data, datum, data, datum');
    OneRead(w, data, datum, datum');
    OneOver(passed, data[w][datum[w]], Unread(w, data, datum'), UnreadIn(s[1..], data, datum'),
      UnreadIn(lists[Input(h)], data, datum'));
    hide Unread, InOrder;
    assert UnreadIn(s, data, datum) == [data[w][datum[w]]] + Unread(w, data, datum') + UnreadIn(s[1..], data, datum');
    assert UnreadIn(s, data, datum') == Unread(w, data, datum') + UnreadIn(s[1..], data, datum');
  }

  lemma OneRead(w: nat, data: seq<seq<nat>>, datum: seq<nat>, datum': seq<nat>)
    requires IsWork(w) && w < |data| && w < |datum| == |datum'| && datum[w] < |data[w]| && datum'[w] == datum[w] + 1
    ensures Unread(w, data, datum) == [data[w][datum[w]]] + Unread(w, data, datum')
  {}

  lemma OneOver(a: seq<nat>, x: nat, b: seq<nat>, c: seq<nat>, d: seq<nat>)
    ensures a + ([x] + b + c) + [] + d == (a + [x]) + (b + c) + [] + d
  {}

  /** What happens to packets that are not in its lists does not concern a handler. */
  lemma OrderElsewhere(h: nat, lists: Lists, data: seq<seq<nat>>, datum: seq<nat>, data': seq<seq<nat>>,
      datum': seq<nat>, passed: seq<nat>, n: nat, w: nat)
    requires InOrder(h, lists, data, datum, passed, n, [])
    requires w !in lists[WorkIn(h)] && w !in lists[Input(h)]
    requires forall q: nat :: q != w ==> Unread(q, data, datum) == Unread(q, data', datum')
    ensures InOrder(h, lists, data', datum', passed, n, [])
  {
    UnreadSame(lists[WorkIn(h)], data, datum, data', datum');
    UnreadSame(lists[Input(h)], data, datum, data', datum');
  }

  /** The next packet of the worker. */
  lemma OrderSent(h: nat, lists: Lists, data: seq<seq<nat>>, datum: seq<nat>, passed: seq<nat>, n: nat, p: nat)
    requires InOrder(h, lists, data, datum, passed, n, []) && Input(Receiver(n)) in lists
    requires Unread(p, data, datum) == LettersOf(n)
    ensures InOrder(h, With(lists, Input(Receiver(n)), p), data, datum, passed, n + 1, [])
  {
    UnreadLonger(lists[Input(h)], p, data, datum);
  }

  /** Both handlers keep the order. */
  ghost predicate AllInOrder(lists: Lists, data: seq<seq<nat>>, datum: seq<nat>, passed: seq<seq<nat>>, n: nat,
      t: nat, hand: int)
  {
    && |passed| == 7
    && forall h: nat :: IsHandler(h) ==> InOrder(h, lists, data, datum, passed[h], n, InHand(h, t, hand))
  }

  lemma AllTaken(lists: Lists, data: seq<seq<nat>>, datum: seq<nat>, passed: seq<seq<nat>>, n: nat, t: nat)
    requires AllInOrder(lists, data, datum, passed, n, 0, NONE) && Input(t) in lists && lists[Input(t)] != []
    ensures AllInOrder(Without(lists, Input(t)), data, datum, passed, n, t, lists[Input(t)][0])
  {
    hide InOrder;
    forall h: nat | IsHandler(h)
      ensures InOrder(h, Without(lists, Input(t)), data, datum, passed[h], n,
        InHand(h, t, lists[Input(t)][0])) {
      OrderTaken(h, lists, data, datum, passed[h], n, t);
    }
  }

  lemma AllCollected(lists: Lists, data: seq<seq<nat>>, datum: seq<nat>, passed: seq<seq<nat>>, n: nat, t: nat, p: nat)
    requires AllInOrder(lists, data, datum, passed, n, t, p) && WorkIn(t) in lists && DeviceIn(t) in lists
    ensures var pl := if IsWork(p) then WorkIn(t) else DeviceIn(t);
      AllInOrder(With(lists, pl, p), data, datum, passed, n, 0, NONE)
  {
    hide InOrder;
    var pl := if IsWork(p) then WorkIn(t) else DeviceIn(t);
    forall h: nat | IsHandler(h)
      ensures InOrder(h, With(lists, pl, p), data, datum, passed[h], n, []) {
      OrderCollected(h, lists, data, datum, passed[h], n, t, p);
    }
  }

  /** A device packet goes from one task to another. */
  lemma AllDelivered(lists: Lists, from: Place, s: seq<nat>, data: seq<seq<nat>>, datum: seq<nat>,
      passed: seq<seq<nat>>, n: nat, t: nat, u: nat, p: nat)
    requires AllInOrder(lists, data, datum, passed, n, 0, NONE)
    requires !IsWork(p) && !from.WorkIn? && !from.Input?
    ensures AllInOrder(With(lists[from := s], Input(u), p), data, datum, passed, n, 0, NONE)
  {
    hide InOrder;
    var lists' := With(lists[from := s], Input(u), p);
    UnreadOne(p, data, datum);
    forall h: nat | IsHandler(h) ensures InOrder(h, lists', data, datum, passed[h], n, []) {
      OrderMaps(h, lists, data, datum, passed[h], n);
      OrderKept(h, lists, lists', data, datum, passed[h], n, [], p);
    }
  }

  lemma OrderMaps(h: nat, lists: Lists, data: seq<seq<nat>>, datum: seq<nat>, passed: seq<nat>, n: nat)
    requires InOrder(h, lists, data, datum, passed, n, [])
    ensures WorkIn(h) in lists && Input(h) in lists
  {}

  /** A device keeps its packet. */
  lemma AllKept(lists: Lists, t: nat, s: seq<nat>, data: seq<seq<nat>>, datum: seq<nat>, passed: seq<seq<nat>>, n: nat,
      hand: int)
    requires AllInOrder(lists, data, datum, passed, n, t, hand) && IsDevice(t)
    ensures AllInOrder(lists[Pending(t) := s], data, datum, passed, n, 0, NONE)
  {}

  /** A work packet without letters goes back to the worker. */
  lemma AllReturned(lists: Lists, data: seq<seq<nat>>, datum: seq<nat>, passed: seq<seq<nat>>, n: nat, t: nat, w: nat)
    requires AllInOrder(lists, data, datum, passed, n, 0, NONE)
    requires WorkIn(t) in lists && lists[WorkIn(t)] != [] && lists[WorkIn(t)][0] == w && Unread(w, data, datum) == []
    ensures AllInOrder(With(Without(lists, WorkIn(t)), Input(WORK), w),
      data, datum, passed, n, 0, NONE)
  {
    hide InOrder, Unread;
    var rest := lists[WorkIn(t)][1..];
    var lists' := With(Without(lists, WorkIn(t)), Input(WORK), w);
    assert lists[WorkIn(t)] == [w] + rest;
    UnreadOne(w, data, datum);
    forall h: nat | IsHandler(h) ensures InOrder(h, lists', data, datum, passed[h], n, []) {
      OrderMaps(h, lists, data, datum, passed[h], n);
      OrderKept(h, lists, lists', data, datum, passed[h], n, [], w);
    }
  }

  /** Handler `t` passes on the first letter of its first work packet. */
  lemma AllPassed(lists: Lists, data: seq<seq<nat>>, datum: seq<nat>, datum': seq<nat>, passed: seq<seq<nat>>, n: nat,
      t: nat, w: nat)
    requires AllInOrder(lists, data, datum, passed, n, 0, NONE) && IsHandler(t) && IsWork(w)
    requires WorkIn(t) in lists && lists[WorkIn(t)] != [] && lists[WorkIn(t)][0] == w && w !in lists[WorkIn(t)][1..]
    requires forall pl :: pl in lists && IsPlace(pl) && pl != WorkIn(t) ==> w !in lists[pl]
    requires w < |data| && w < |datum| == |datum'| && datum[w] < |data[w]| && datum'[w] == datum[w] + 1
    requires forall q: nat :: q < |datum| && IsWork(q) && q != w ==> datum'[q] == datum[q]
    ensures AllInOrder(lists, data, datum', passed[t := passed[t] + [data[w][datum[w]]]], n, 0, NONE)
  {
    hide InOrder;
    var passed' := passed[t := passed[t] + [data[w][datum[w]]]];
    forall h: nat | IsHandler(h) ensures InOrder(h, lists, data, datum', passed'[h], n, []) {
      OrderMaps(h, lists, data, datum, passed[h], n);
      if h == t {
        OrderPassed(h, lists, data, datum, datum', passed[h], n, w);
      } else {
        OrderElsewhere(h, lists, data, datum, data, datum', passed[h], n, w);
      }
    }
  }

  /** The worker fills a packet and sends it. */
  lemma AllSent(lists: Lists, data: seq<seq<nat>>, datum: seq<nat>, data': seq<seq<nat>>, datum': seq<nat>,
      passed: seq<seq<nat>>, n: nat, p: nat)
    requires AllInOrder(lists, data, datum, passed, n, WORK, p) && Input(Receiver(n)) in lists
    requires forall pl :: pl in lists && IsPlace(pl) ==> p !in lists[pl]
    requires forall q: nat :: q != p ==> Unread(q, data, datum) == Unread(q, data', datum')
    requires Unread(p, data', datum') == LettersOf(n)
    ensures AllInOrder(With(lists, Input(Receiver(n)), p), data', datum', passed, n + 1,
      0, NONE)
  {
    hide InOrder, Unread, LettersOf;
    var lists' := With(lists, Input(Receiver(n)), p);
    forall h: nat | IsHandler(h) ensures InOrder(h, lists', data', datum', passed[h], n + 1, []) {
      OrderMaps(h, lists, data, datum, passed[h], n);
      OrderElsewhere(h, lists, data, datum, data', datum', passed[h], n, p);
      OrderSent(h, lists, data', datum', passed[h], n, p);
    }
  }

  class Scheduler {
    // Packets.
    var link: seq<int>
    var ident: seq<nat>
    var datum: seq<nat>
    var data: seq<seq<nat>>

    // Tasks.
    var first: map<Place, int>
    var packetPending: seq<bool>
    var taskWaiting: seq<bool>
    var taskHolding: seq<bool>

    // Task records and the work area.
    var control: bv16
    var idleCount: int
    var destination: nat
    var workCount: nat
    var holdCount: nat
    var qpktCount: nat

    ghost var lists: Lists
    ghost var place: seq<Place>

    /** The packets that the worker has sent, and the letters that each handler has passed to its device. */
    ghost var sent: nat
    ghost var passed: seq<seq<nat>>

    // -------------------------------------------------------------------
    // The invariant
    // -------------------------------------------------------------------

    /** Packets are in their places; `hand` is the one that the running task has, or NONE. */
    ghost predicate Held(hand: int)
      reads this`link, this`first, this`lists, this`place
    {
      && |link| == 8
      && Placed(lists, place) && Represented(first, link, lists)
      && forall p: nat :: p < 8 ==> (place[p] == Hand <==> p == hand)
    }

    ghost predicate AllProper()
      reads this`ident, this`datum, this`data, this`place
    {
      && |ident| == |datum| == |data| == |place| == 8
      && (forall p: nat :: p < 8 ==> |data[p]| == BUFSIZE)
      && (forall p: nat :: p < 8 ==> Proper(p, place[p], ident[p], datum[p]))
    }

    /** A task's flag tells whether it has input; a device with a pending packet is not waiting. */
    ghost predicate FlagsMatch()
      reads this`packetPending, this`taskWaiting, this`taskHolding, this`lists
    {
      && |packetPending| == |taskWaiting| == |taskHolding| == 7
      && (forall t: nat :: IsTask(t) ==> Input(t) in lists && (packetPending[t] <==> lists[Input(t)] != []))
      && (forall t: nat :: IsDevice(t) ==> Pending(t) in lists && (lists[Pending(t)] != [] ==> !taskWaiting[t]))
      && lists[Input(IDLE)] == []
    }

    predicate Blocked(t: nat)
      requires IsTask(t) && |packetPending| == |taskWaiting| == |taskHolding| == 7
      reads this`packetPending, this`taskWaiting, this`taskHolding
    {
      taskHolding[t] || (!packetPending[t] && taskWaiting[t])
    }

    /** Every task of higher priority than `t` is holding or waiting; `t` is 0 when no task is left. */
    ghost predicate BlockedAbove(t: nat)
      reads this`packetPending, this`taskWaiting, this`taskHolding
    {
      && |packetPending| == |taskWaiting| == |taskHolding| == 7
      && t <= 6
      && forall u: nat :: t < u <= 6 ==> Blocked(u)
    }

    /** The worker's record fits the number of packets sent, and both handlers pass the letters on in order. */
    ghost predicate Letters(t: nat, hand: int)
      reads this`lists, this`data, this`datum, this`passed, this`sent, this`destination, this`workCount
    {
      && destination == Receiver(sent + 1) && workCount == CountAt(4 * sent)
      && |passed| == 7 && AllInOrder(lists, data, datum, passed, sent, t, hand)
    }

    /** Packet `p` is sent by task `t` to task `u`, which goes on next if it is more urgent and had no packet. */
    twostate predicate Delivered(before: Lists, t: nat, u: nat, p: nat, next: nat)
      reads this
    {
      && p < |old(ident)| && u < |old(packetPending)| && Input(u) in before
      && ident == old(ident)[p := t]
      && lists == With(before, Input(u), p)
      && packetPending == old(packetPending)[u := true]
      && qpktCount == old(qpktCount) + 1
      && next == (if before[Input(u)] == [] && u > t then u else t)
    }

    ghost predicate Running(t: nat, hand: int)
      reads this
    {
      Held(hand) && AllProper() && FlagsMatch() && BlockedAbove(t)
    }

    ghost function Level(): nat
      requires |place| == |datum| == 8 && |taskHolding| == 7
      reads this`place, this`datum, this`taskHolding
    {
      Potential(place, datum, taskHolding, 8)
    }

    ghost function Unasleep(): nat
      requires |taskWaiting| == 7
      reads this`taskWaiting
    {
      Awake(taskWaiting, 7)
    }

    ghost predicate Valid(t: nat)
      reads this
    {
      Running(t, NONE)
    }

    /** The six tasks and eight packets at the start; the task list begins with the second device. */
    constructor ()
      ensures Valid(DEVB) && IdleCounts() && Letters(0, NONE)
      ensures sent == holdCount == qpktCount == 0 && idleCount == 10000
    {
      hide Placed, Represented, Proper, StartLists, StartFirst, StartList;
      link, ident, datum := START_LINK, START_IDENT, [0, 0, 0, 0, 0, 0, 0, 0];
      data := seq(8, _ => [0, 0, 0, 0]);
      first, lists, place := StartFirst(), StartLists(), START_PLACE;
      packetPending := [false, false, true, true, true, false, false];
      taskWaiting := [true, false, true, true, true, true, true];
      taskHolding := [false, false, false, false, false, false, false];
      control, idleCount, destination, workCount := 1, 10000, HANDLERA, 0;
      holdCount, qpktCount := 0, 0;
      sent, passed := 0, [[], [], [], [], [], [], []];
      StartIsPlaced();
      StartIsRepresented();
      StartInputs();
      StartLetters();
      forall p: nat | p < 8 ensures Proper(p, START_PLACE[p], START_IDENT[p], 0) {
        StartIsProper(p);
      }
    }

    // -------------------------------------------------------------------
    // Moving packets
    // -------------------------------------------------------------------

    /** Takes the first packet of a list; its own link is left as it is. */
    method Take(pl: Place) returns (p: nat)
      requires Held(NONE) && IsPlace(pl) && !pl.Pending? && pl in first && first[pl] != NONE
      modifies this`first, this`lists, this`place
      ensures pl in old(lists) && old(lists[pl]) != [] && p == old(lists[pl])[0] && p < 8
      ensures old(place)[p] == pl
      ensures lists == Without(old(lists), pl) && place == old(place)[p := Hand]
      ensures Held(p) && pl in first && (first[pl] == NONE <==> lists[pl] == [])
    {
      hide Placed, Chain;
      TakeFacts(pl);
      p := first[pl];
      first := first[pl := link[p]];
      place := place[p := Hand];
      lists := lists[pl := lists[pl][1..]];
    }

    lemma TakeFacts(pl: Place)
      requires Held(NONE) && IsPlace(pl) && !pl.Pending? && pl in first && first[pl] != NONE
      ensures pl in lists && lists[pl] != [] && |link| == 8 && |place| == 8
      ensures var s := lists[pl]; var p := s[0];
        && p < 8 && first[pl] == p && place[p] == pl
        && Placed(lists[pl := s[1..]], place[p := Hand])
        && Represented(first[pl := link[p]], link, lists[pl := s[1..]])
        && (link[p] == NONE <==> s[1..] == [])
    {
      hide Chain;
      ChainEnds(link, first[pl], lists[pl]);
      ChainRest(link, first[pl], lists[pl]);
      ChainEnds(link, link[first[pl]], lists[pl][1..]);
      TakeFirst(lists, place, pl);
      var p := lists[pl][0];
      assert p in lists[pl];
    }

    /** Packet.append_to: walks to the last packet of a list. */
    method AppendTo(p: nat, pl: Place)
      requires Held(p) && p < 8 && IsPlace(pl) && !pl.Pending? && pl in lists && pl in first
      modifies this`link, this`first, this`lists, this`place
      ensures Held(NONE)
      ensures pl in old(lists) && lists == With(old(lists), pl, p) && place == old(place)[p := pl]
    {
      hide Placed, Chain;
      Unlink(p);
      AppendFacts(p, pl);
      if first[pl] == NONE {
        first := first[pl := p];
      } else {
        var last := LastOf(pl);
        link := link[last := p];
      }
      place := place[p := pl];
      lists := With(lists, pl, p);
    }

    /** The packet in the hand has no continuation. */
    method Unlink(p: nat)
      requires Held(p) && p < 8
      modifies this`link
      ensures Held(p) && link == old(link)[p := NONE]
    {
      hide Chain;
      forall pl | IsPlace(pl) ensures RepresentedAt(first[pl], link[p := NONE], pl, lists[pl]) {
        ElsewhereAt(p, p, pl, NONE);
      }
      link := link[p := NONE];
    }

    /** The lists where `q` is not do not notice a change of its link. */
    lemma ElsewhereAt(hand: int, q: nat, pl: Place, x: int)
      requires Held(hand) && q < 8 && IsPlace(pl) && place[q] != pl
      ensures pl in first && pl in lists && RepresentedAt(first[pl], link[q := x], pl, lists[pl])
    {
      hide Chain;
      var s := lists[pl];
      assert q in s <==> place[q] == pl;
      assert RepresentedAt(first[pl], link, pl, s);
      if !pl.Pending? {
        ChainElsewhere(link, first[pl], s, q, x);
      }
    }

    /** The loop of append_to. */
    method LastOf(pl: Place) returns (last: nat)
      requires pl in first && pl in lists && lists[pl] != [] && Chain(link, first[pl], lists[pl])
      ensures last == lists[pl][|lists[pl]| - 1] && last < 8
    {
      ghost var s := lists[pl];
      last := first[pl];
      ghost var k := 0;
      var next := link[last];
      while next != NONE
        invariant k < |s| && last == s[k] && next == (if k < |s| - 1 then s[k + 1] else NONE)
        invariant last < 8
        decreases |s| - k
      {
        last := next;
        k := k + 1;
        next := link[last];
      }
    }

    lemma AppendFacts(p: nat, pl: Place)
      requires Held(p) && p < 8 && link[p] == NONE && IsPlace(pl) && !pl.Pending?
      ensures pl in first && pl in lists && |link| == 8 && |place| == 8 && Chain(link, first[pl], lists[pl])
      ensures var s := lists[pl];
        && Placed(lists[pl := s + [p]], place[p := pl])
        && (first[pl] == NONE <==> s == [])
        && (if s == [] then Represented(first[pl := p], link, lists[pl := s + [p]])
            else s[|s| - 1] < 8 && Represented(first, link[s[|s| - 1] := p], lists[pl := s + [p]]))
    {
      hide Chain;
      var s := lists[pl];
      assert RepresentedAt(first[pl], link, pl, s);
      assert p in s <==> place[p] == pl;
      ChainEnds(link, first[pl], s);
      ChainLonger(link, first[pl], s, p);
      PutLast(lists, place, pl, p);
      if s != [] {
        var last := s[|s| - 1];
        assert last in s;
        forall other | IsPlace(other) && other != pl
          ensures RepresentedAt(first[other], link[last := p], other, lists[other]) {
          ElsewhereAt(p, last, other, p);
        }
      }
    }

    // -------------------------------------------------------------------
    // What a task does at the end of its turn; each returns the task to go on with
    // -------------------------------------------------------------------

    /** taskTab has the six tasks and nothing else; the precondition says that no call fails. */
    method FindTcb(id: nat) returns (t: nat)
      requires IsTask(id)
      ensures t == id
    {
      t := id;
    }

    method WaitTask(t: nat) returns (next: nat)
      requires IsTask(t) && Valid(t) && (IsDevice(t) ==> lists[Pending(t)] == []) && !taskWaiting[t]
      modifies this`taskWaiting
      ensures next == t && Valid(next) && Unasleep() == old(Unasleep()) - 1
      ensures taskWaiting == old(taskWaiting)[t := true]
    {
      hide Placed, Represented, Proper;
      OneFallsAsleep(taskWaiting, t, 7);
      taskWaiting := taskWaiting[t := true];
      next := t;
      forall u: nat | next < u <= 6 ensures Blocked(u) {
        assert old(Blocked(u));
      }
    }

    method Hold(t: nat) returns (next: nat)
      requires IsTask(t) && Valid(t)
      modifies this`taskHolding, this`holdCount
      ensures next == NextTask(t) && Valid(next) && taskHolding == old(taskHolding)[t := true]
      ensures holdCount == old(holdCount) + 1
    {
      hide Placed, Represented, Proper;
      holdCount := holdCount + 1;
      taskHolding := taskHolding[t := true];
      next := NextTask(t);
      forall u: nat | next < u <= 6 ensures Blocked(u) {
        assert u > t ==> old(Blocked(u));
      }
    }

    method Release(t: nat, id: nat) returns (next: nat)
      requires IsTask(t) && IsTask(id) && Valid(t)
      modifies this`taskHolding
      ensures next == (if id > t then id else t) && Valid(next) && taskHolding == old(taskHolding)[id := false]
    {
      hide Placed, Represented, Proper;
      var u := FindTcb(id);
      taskHolding := taskHolding[u := false];
      if Priority(u) > Priority(t) {
        next := u;
      } else {
        next := t;
      }
      forall v: nat | next < v <= 6 ensures Blocked(v) {
        assert old(Blocked(v));
      }
    }

    /** Task.addPacket: an empty input gets its first packet; otherwise it is appended. */
    method AddPacket(t: nat, p: nat, sender: nat) returns (next: nat)
      requires IsTask(t) && t != IDLE && IsTask(sender) && Running(sender, p) && p < 8 && link[p] == NONE
      requires Proper(p, Input(t), ident[p], datum[p])
      modifies this`first, this`link, this`packetPending, this`lists, this`place
      ensures IsTask(next) && Valid(next)
      ensures p < |old(place)| && place == old(place)[p := Input(t)]
      ensures Input(t) in old(lists) && lists == With(old(lists), Input(t), p)
      ensures |old(packetPending)| == 7 && packetPending == old(packetPending)[t := true]
      ensures next == if old(lists[Input(t)]) == [] && t > sender then t else sender
    {
      hide Placed, Represented, Chain, Proper;
      AddFacts(t, p);
      PlacedAt(p, Input(t));
      assert lists[Input(t)] == [] ==> lists[Input(t)] + [p] == [p];
      if first[Input(t)] == NONE {
        first := first[Input(t) := p];
        place := place[p := Input(t)];
        lists := lists[Input(t) := [p]];
        packetPending := packetPending[t := true];
        forall u: nat | u > t && u > sender && u <= 6 ensures Blocked(u) {
          assert old(Blocked(u));
        }
        if Priority(t) > Priority(sender) {
          return t;
        }
      } else {
        AppendTo(p, Input(t));
      }
      next := sender;
      forall u: nat | next < u <= 6 ensures Blocked(u) {
        assert old(Blocked(u));
      }
    }

    lemma AddFacts(t: nat, p: nat)
      requires IsTask(t) && Held(p) && p < 8 && link[p] == NONE
      ensures Input(t) in first && Input(t) in lists && |place| == 8
      ensures first[Input(t)] == NONE <==> lists[Input(t)] == []
      ensures first[Input(t)] == NONE ==>
        && Placed(lists[Input(t) := [p]], place[p := Input(t)])
        && Represented(first[Input(t) := p], link, lists[Input(t) := [p]])
    {
      hide Placed, Represented;
      AppendFacts(p, Input(t));
      assert lists[Input(t)] == [] ==> lists[Input(t)] + [p] == [p];
    }

    lemma PlacedAt(p: nat, pl: Place)
      requires Held(p) && p < 8
      ensures |place| == 8 && place[p] == Hand
    {}

    /** Task.qpkt: the packet goes to the task that it names, and names its sender from now on. */
    method Qpkt(t: nat, p: nat) returns (next: nat)
      requires IsTask(t) && Running(t, p) && p < 8 && IsTask(ident[p]) && ident[p] != IDLE
      requires Proper(p, Input(ident[p]), t, datum[p])
      modifies this`first, this`link, this`ident, this`packetPending, this`qpktCount, this`lists, this`place
      ensures IsTask(next) && Valid(next)
      ensures p < |old(place)| && place == old(place)[p := Input(old(ident[p]))]
      ensures Delivered(old(lists), t, old(ident[p]), p, next)
    {
      hide Placed, Represented, Chain, Proper, FlagsMatch, BlockedAbove;
      PlacedAt(p, Hand);
      var u := FindTcb(ident[p]);
      qpktCount := qpktCount + 1;
      Unlink(p);
      HandIsProper(p, t, datum[p]);
      ident := ident[p := t];
      next := AddPacket(u, p, t);
    }

    lemma HandIsProper(p: nat, id: nat, d: nat)
      ensures Proper(p, Hand, id, d)
    {}

    // -------------------------------------------------------------------
    // The four kinds of task
    // -------------------------------------------------------------------

    /** What a packet in a place tells about the task there. */
    lemma FirstIsProper(t: nat, pl: Place)
      requires Valid(t) && IsPlace(pl) && pl in first && first[pl] != NONE
      ensures 0 <= first[pl] < 8 && pl in lists && lists[pl] != [] && lists[pl][0] == first[pl]
        && place[first[pl]] == pl
      ensures Proper(first[pl], pl, ident[first[pl]], datum[first[pl]])
    {
      assert RepresentedAt(first[pl], link, pl, lists[pl]);
      var p := lists[pl][0];
      assert p in lists[pl];
    }

    /** The pending packet comes into the hand. */
    method TakePending(t: nat) returns (p: nat)
      requires IsDevice(t) && Valid(t) && Pending(t) in first && first[Pending(t)] != NONE
      modifies this`first, this`lists, this`place
      ensures p < 8 && Running(t, p) && Proper(p, Pending(t), ident[p], datum[p])
      ensures Pending(t) in old(lists) && old(lists[Pending(t)]) == [p] && lists == old(lists)[Pending(t) := []]
      ensures p < |old(place)| && old(place[p]) == Pending(t) && place == old(place)[p := Hand]
    {
      hide Chain, Placed, Proper, Represented, BlockedAbove;
      TakePendingFacts(t);
      var pl := Pending(t);
      p := first[pl];
      first := first[pl := NONE];
      place := place[p := Hand];
      lists := lists[pl := []];
    }

    lemma TakePendingFacts(t: nat)
      requires IsDevice(t) && Valid(t) && Pending(t) in first && first[Pending(t)] != NONE
      ensures var pl := Pending(t); var p := first[pl];
        && 0 <= p < 8 && |place| == 8 && pl in lists && place[p] == pl && lists[pl] == [p]
        && Proper(p, pl, ident[p], datum[p]) && Proper(p, Hand, ident[p], datum[p])
        && Placed(lists[pl := []], place[p := Hand])
        && Represented(first[pl := NONE], link, lists[pl := []])
    {
      hide Chain, FlagsMatch, BlockedAbove;
      FirstIsProper(t, Pending(t));
      var pl := Pending(t);
      var p := first[pl];
      assert RepresentedAt(first[pl], link, pl, lists[pl]);
      assert lists[pl] == [p] && lists[pl][1..] == [];
      TakeFirst(lists, place, pl);
    }

    /** A device keeps a packet; there is none yet that would be lost. */
    method KeepPending(t: nat, p: nat)
      requires IsDevice(t) && Running(t, p) && p < 8 && Proper(p, Input(t), ident[p], datum[p])
      requires lists[Pending(t)] == [] && !taskWaiting[t]
      modifies this`first, this`lists, this`place
      ensures Valid(t) && p < |old(place)| && place == old(place)[p := Pending(t)]
      ensures lists == old(lists)[Pending(t) := [p]]
    {
      hide Chain, Placed, Proper, Represented, BlockedAbove;
      KeepFacts(t, p);
      first := first[Pending(t) := p];
      place := place[p := Pending(t)];
      lists := lists[Pending(t) := [p]];
    }

    lemma KeepFacts(t: nat, p: nat)
      requires IsDevice(t) && Running(t, p) && p < 8 && Proper(p, Input(t), ident[p], datum[p])
      requires lists[Pending(t)] == []
      ensures var pl := Pending(t);
        && |place| == 8 && Proper(p, pl, ident[p], datum[p])
        && Placed(lists[pl := [p]], place[p := pl])
        && Represented(first[pl := p], link, lists[pl := [p]])
    {
      hide Chain, FlagsMatch, BlockedAbove;
      var pl := Pending(t);
      PutLast(lists, place, pl, p);
      assert lists[pl] + [p] == [p];
    }

    method FnDevice(t: nat, pkt: int) returns (next: nat)
      requires IsDevice(t) && Running(t, pkt) && -1 <= pkt < 8 && !taskWaiting[t] && !taskHolding[t]
      requires pkt != NONE ==> Proper(pkt, Input(t), ident[pkt], datum[pkt]) && lists[Pending(t)] == []
      requires Letters(t, pkt)
      modifies this`first, this`link, this`ident, this`packetPending, this`taskWaiting, this`taskHolding,
        this`holdCount, this`qpktCount, this`lists, this`place
      ensures Valid(next) && Letters(0, NONE)
      ensures taskHolding == if pkt == NONE then old(taskHolding) else old(taskHolding)[t := true]
      ensures Pending(t) in old(lists)
      ensures pkt != NONE ==>
        && next == NextTask(t) && lists == old(lists)[Pending(t) := [pkt]] && ident == old(ident)
        && holdCount == old(holdCount) + 1 && qpktCount == old(qpktCount) && taskWaiting == old(taskWaiting)
      ensures pkt == NONE && old(lists[Pending(t)]) == [] ==> Sleeps(t, next)
      ensures pkt == NONE && old(lists[Pending(t)]) != [] ==>
        var p := old(lists[Pending(t)])[0];
        && p < |old(ident)| && Delivered(old(lists)[Pending(t) := []], t, old(ident)[p], p, next)
        && taskWaiting == old(taskWaiting) && holdCount == old(holdCount)
      ensures pkt != NONE ==> Level() < old(Level() + Weight(pkt, Input(t), datum[pkt], taskHolding))
      ensures pkt == NONE ==> Level() < old(Level()) || (Level() == old(Level()) && Unasleep() < old(Unasleep()))
    {
      hide Placed, Chain, Proper, Potential, Represented, AllInOrder;
      if pkt == NONE {
        EmptyHand(t);
        PendingFacts(t);
        if first[Pending(t)] == NONE {
          next := WaitTask(t);
        } else {
          next := PassBack(t);
        }
      } else {
        AllKept(lists, t, [pkt], data, datum, passed, sent, pkt);
        next := KeepAndHold(t, pkt);
      }
    }

    /** Task `t` waits; nothing else changes. */
    twostate predicate Sleeps(t: nat, next: nat)
      reads this
    {
      && next == t && t < |old(taskWaiting)| && taskWaiting == old(taskWaiting)[t := true]
      && lists == old(lists) && ident == old(ident) && datum == old(datum) && passed == old(passed)
      && holdCount == old(holdCount) && qpktCount == old(qpktCount)
    }

    /** A packet from its handler stays with the device. */
    method KeepAndHold(t: nat, pkt: nat) returns (next: nat)
      requires IsDevice(t) && Running(t, pkt) && pkt < 8 && !taskWaiting[t] && !taskHolding[t]
      requires Proper(pkt, Input(t), ident[pkt], datum[pkt]) && lists[Pending(t)] == []
      modifies this`first, this`taskHolding, this`holdCount, this`lists, this`place
      ensures Valid(next) && next == NextTask(t) && taskHolding == old(taskHolding)[t := true]
      ensures lists == old(lists)[Pending(t) := [pkt]] && holdCount == old(holdCount) + 1
      ensures |place| == |datum| == 8 && |taskHolding| == 7
      ensures Level() < old(Level() + Weight(pkt, Input(t), datum[pkt], taskHolding))
    {
      hide Placed, Chain, Proper, Potential, Represented;
      ghost var before := place;
      KeepPending(t, pkt);
      OwnPending(t, pkt, ident[pkt], datum[pkt]);
      assert forall q: nat :: q < 8 && q != pkt ==> place[q] != Pending(t) by {
        OnlyPending(t, pkt);
      }
      HeldBack(before, place, datum, taskHolding, t, pkt);
      next := Hold(t);
    }

    /** The pending packet goes back to the handler. */
    method PassBack(t: nat) returns (next: nat)
      requires IsDevice(t) && Valid(t) && !taskWaiting[t] && !taskHolding[t] && Letters(0, NONE)
      requires Pending(t) in first && first[Pending(t)] != NONE
      modifies this`first, this`link, this`ident, this`packetPending, this`qpktCount, this`lists, this`place
      ensures Valid(next) && Letters(0, NONE)
      ensures Pending(t) in old(lists) && old(lists[Pending(t)]) != []
      ensures var p := old(lists[Pending(t)])[0];
        p < |old(ident)| && Delivered(old(lists)[Pending(t) := []], t, old(ident)[p], p, next)
      ensures |place| == |datum| == 8 && |taskHolding| == 7 && Level() < old(Level())
    {
      hide Placed, Chain, Proper, Potential, Represented, AllInOrder, FlagsMatch, BlockedAbove;
      SizesOf(t);
      ghost var before, was := place, lists;
      var p := TakePending(t);
      BackToHandler(t, p, ident[p], datum[p]);
      PacketMoves(before, datum, taskHolding, p, Hand);
      PacketMoves(place, datum, taskHolding, p, Input(ident[p]));
      ghost var u := ident[p];
      next := Qpkt(t, p);
      AllDelivered(was, Pending(t), [], data, datum, passed, sent, t, u, p);
    }

    /** With empty hands it does not matter whose they are. */
    lemma EmptyHand(t: nat)
      requires Letters(t, NONE)
      ensures Letters(0, NONE)
    {
      hide InOrder;
      forall h: nat | IsHandler(h) ensures InOrder(h, lists, data, datum, passed[h], sent, []) {
        assert InOrder(h, lists, data, datum, passed[h], sent, InHand(h, t, NONE));
      }
    }

    lemma OwnPending(t: nat, p: nat, id: nat, d: nat)
      requires IsDevice(t) && Proper(p, Input(t), id, d)
      ensures !IsWork(p)
    {}

    lemma OnlyPending(t: nat, p: nat)
      requires IsDevice(t) && Valid(t) && p < 8 && place[p] == Pending(t)
      ensures forall q: nat :: q < 8 && q != p ==> place[q] != Pending(t)
    {
      hide Chain, FlagsMatch, BlockedAbove, Proper;
      var s := lists[Pending(t)];
      assert RepresentedAt(first[Pending(t)], link, Pending(t), s);
      assert p in s;
      forall q: nat | q < 8 && q != p ensures place[q] != Pending(t) {
        assert q in s <==> place[q] == Pending(t);
      }
    }

    lemma PendingFacts(t: nat)
      requires IsDevice(t) && Valid(t)
      ensures Pending(t) in first && Pending(t) in lists && (first[Pending(t)] == NONE <==> lists[Pending(t)] == [])
    {
      hide Chain, Placed;
      assert IsPlace(Pending(t));
      assert RepresentedAt(first[Pending(t)], link, Pending(t), lists[Pending(t)]);
    }

    lemma BackToHandler(t: nat, p: nat, id: nat, d: nat)
      requires IsDevice(t) && Proper(p, Pending(t), id, d)
      ensures IsHandler(id) && !IsWork(p) && Proper(p, Input(id), t, d)
    {}

    method FnHandler(t: nat, pkt: int) returns (next: nat)
      requires IsHandler(t) && Running(t, pkt) && -1 <= pkt < 8 && !taskWaiting[t] && Letters(t, pkt)
      requires pkt != NONE ==> Proper(pkt, Input(t), ident[pkt], datum[pkt])
      modifies this`first, this`link, this`ident, this`datum, this`packetPending, this`taskWaiting, this`qpktCount,
        this`lists, this`place, this`passed
      ensures Valid(next) && Letters(0, NONE)
      ensures Handles(Collected(old(lists), t, pkt), t, next)
      ensures pkt != NONE ==> Level() < old(Level() + Weight(pkt, Input(t), datum[pkt], taskHolding))
      ensures pkt == NONE ==> Level() < old(Level()) || (Level() == old(Level()) && Unasleep() < old(Unasleep()))
    {
      hide Placed, Represented, Chain, Proper, FlagsMatch, BlockedAbove, Potential, AllInOrder, With, Without;
      if pkt == NONE {
        EmptyHand(t);
      } else {
        CollectInput(t, pkt);
      }
      next := HandlerTurn(t);
    }

    /** The packet in the hand goes to one of the handler's lists, where it weighs less than in the input. */
    method CollectInput(t: nat, pkt: nat)
      requires IsHandler(t) && Running(t, pkt) && pkt < 8 && Letters(t, pkt)
      requires Proper(pkt, Input(t), ident[pkt], datum[pkt])
      modifies this`link, this`first, this`lists, this`place
      ensures Valid(t) && Letters(0, NONE) && lists == Collected(old(lists), t, pkt)
      ensures |place| == |datum| == 8 && |taskHolding| == 7
      ensures Level() < old(Level() + Weight(pkt, Input(t), datum[pkt], taskHolding))
    {
      hide Placed, Represented, Chain, Proper, FlagsMatch, BlockedAbove, Potential, AllInOrder, With;
      HandlerLists(t, pkt);
      HandWeighsNothing(t, pkt);
      PacketMoves(place, datum, taskHolding, pkt, if IsWork(pkt) then WorkIn(t) else DeviceIn(t));
      AllCollected(lists, data, datum, passed, sent, t, pkt);
      Collect(t, pkt);
    }

    /** The lists after handler `t` has put a packet, if it got one, where it belongs. */
    function Collected(ls: Lists, t: nat, pkt: int): Lists {
      if pkt < 0 then ls else With(ls, if IsWork(pkt) then WorkIn(t) else DeviceIn(t), pkt)
    }

    lemma HandlerLists(t: nat, pkt: int)
      requires IsHandler(t) && Running(t, pkt)
      ensures WorkIn(t) in lists && DeviceIn(t) in lists
    {
      hide Represented, Chain, Proper, FlagsMatch, BlockedAbove;
      assert IsPlace(WorkIn(t)) && IsPlace(DeviceIn(t));
    }

    /**
      A turn of handler `t` whose lists are those of `ls`: an empty work packet goes back to
      the worker; otherwise the next letter goes out in a device packet, if there are both.
     */
    twostate predicate Handles(ls: Lists, t: nat, next: nat)
      reads this
    {
      && WorkIn(t) in ls && DeviceIn(t) in ls && |old(datum)| == |old(data)| == |old(ident)| == 8
      && var ws, ds := ls[WorkIn(t)], ls[DeviceIn(t)];
      if ws == [] || ws[0] >= 8 || (old(datum)[ws[0]] < BUFSIZE && ds == []) then
        && next == t && lists == ls && datum == old(datum) && ident == old(ident) && qpktCount == old(qpktCount)
        && passed == old(passed) && t < |old(taskWaiting)| && taskWaiting == old(taskWaiting)[t := true]
      else if old(datum)[ws[0]] >= BUFSIZE then
        && Delivered(Without(ls, WorkIn(t)), t, WORK, ws[0], next)
        && datum == old(datum) && passed == old(passed) && taskWaiting == old(taskWaiting)
      else
        var w := ws[0];
        && Delivered(Without(ls, DeviceIn(t)), t, DeviceOf(ds[0]), ds[0], next)
        && old(datum)[w] < |old(data)[w]| && t < |old(passed)|
        && datum == old(datum)[ds[0] := old(data)[w][old(datum)[w]]][w := old(datum)[w] + 1]
        && passed == old(passed)[t := old(passed)[t] + [datum[ds[0]]]] && taskWaiting == old(taskWaiting)
    }

    lemma HandWeighsNothing(t: nat, p: nat)
      requires Running(t, p) && p < 8
      ensures |place| == |datum| == 8 && |taskHolding| == 7 && place[p] == Hand
    {
      hide Placed, Represented, Chain, Proper;
    }

    lemma SizesOf(t: nat)
      requires Valid(t)
      ensures t <= 6
      ensures |place| == |ident| == |datum| == |data| == 8 && |taskHolding| == |taskWaiting| == |packetPending| == 7
    {
      hide Placed, Represented, Chain, Proper;
    }

    /** A packet that is full, or read to its end, goes back to the worker. */
    method ReturnWork(t: nat, work: nat) returns (next: nat)
      requires IsHandler(t) && Valid(t) && !taskWaiting[t] && WorkIn(t) in first && Letters(0, NONE)
      requires work < 8 && first[WorkIn(t)] == work && datum[work] >= BUFSIZE
      modifies this`first, this`link, this`ident, this`packetPending, this`qpktCount, this`lists, this`place
      ensures Valid(next) && Letters(0, NONE)
      ensures WorkIn(t) in old(lists) && old(lists[WorkIn(t)]) != [] && old(lists[WorkIn(t)])[0] == work
      ensures Delivered(Without(old(lists), WorkIn(t)), t, WORK, work, next)
      ensures |place| == |datum| == 8 && |taskHolding| == 7 && Level() < old(Level())
    {
      hide Placed, Represented, Chain, Proper, FlagsMatch, BlockedAbove, Potential, AllInOrder;
      SizesOf(t);
      FirstIsProper(t, WorkIn(t));
      WorkFacts(t, work, ident[work], datum[work]);
      NothingUnread(t, work);
      PacketMoves(place, datum, taskHolding, work, Hand);
      ghost var was := lists;
      var w := TakeProper(t, WorkIn(t));
      PacketMoves(place, datum, taskHolding, w, Input(WORK));
      next := Qpkt(t, w);
      AllReturned(was, data, datum, passed, sent, t, w);
    }

    lemma NothingUnread(t: nat, work: nat)
      requires Valid(t) && work < 8 && datum[work] >= BUFSIZE
      ensures Unread(work, data, datum) == []
    {
      hide Placed, Represented, FlagsMatch, BlockedAbove;
    }

    /** The rest of a handler's turn, when its packet is on one of its lists. */
    method HandlerTurn(t: nat) returns (next: nat)
      requires IsHandler(t) && Valid(t) && !taskWaiting[t] && Letters(0, NONE)
      modifies this`first, this`link, this`ident, this`datum, this`packetPending, this`taskWaiting, this`qpktCount,
        this`lists, this`place, this`passed
      ensures Valid(next) && Letters(0, NONE) && Handles(old(lists), t, next)
      ensures Level() < old(Level()) || (Level() == old(Level()) && Unasleep() < old(Unasleep()))
    {
      hide Placed, Represented, Chain, Proper, FlagsMatch, BlockedAbove, Potential, AllInOrder;
      HandlerFacts(t);
      SizesOf(t);
      var work := first[WorkIn(t)];
      if work == NONE {
        next := WaitTask(t);
        return;
      }
      FirstIsProper(t, WorkIn(t));
      WorkFacts(t, work, ident[work], datum[work]);
      var count := datum[work];
      if count >= BUFSIZE {
        next := ReturnWork(t, work);
        return;
      }
      var dev := first[DeviceIn(t)];
      if dev == NONE {
        next := WaitTask(t);
        return;
      }
      FirstIsProper(t, DeviceIn(t));
      next := PassOn(t, work, count, dev);
    }

    /** The next letter of the work packet goes to the device. */
    method PassOn(t: nat, work: nat, count: nat, dev: nat) returns (next: nat)
      requires IsHandler(t) && Valid(t) && !taskWaiting[t] && Letters(0, NONE)
      requires WorkIn(t) in first && first[WorkIn(t)] == work < 8
      requires DeviceIn(t) in first && first[DeviceIn(t)] == dev
      requires datum[work] == count < BUFSIZE
      modifies this`first, this`link, this`ident, this`datum, this`packetPending, this`qpktCount,
        this`lists, this`place, this`passed
      ensures Valid(next) && Letters(0, NONE)
      ensures |old(data)| == |old(datum)| == 8 && |old(data)[work]| == BUFSIZE && |old(passed)| == 7
      ensures Delivered(Without(old(lists), DeviceIn(t)), t, DeviceOf(dev), dev, next)
      ensures datum == old(datum)[dev := data[work][count]][work := count + 1]
      ensures passed == old(passed)[t := old(passed)[t] + [data[work][count]]]
      ensures |place| == 8 && |taskHolding| == 7 && Level() < old(Level())
    {
      hide Placed, Represented, Chain, Proper, FlagsMatch, BlockedAbove, Potential, AllInOrder, With, Without;
      LetterPassed(t, work, dev);
      SizesOf(t);
      FillDevice(t, work, count, dev);
      passed := passed[t := passed[t] + [data[work][count]]];
      PacketMoves(place, datum, taskHolding, dev, Input(ident[dev]));
      next := Qpkt(t, dev);
    }

    /** The device packet is taken from its list and gets the letter. */
    method FillDevice(t: nat, work: nat, count: nat, dev: nat)
      requires IsHandler(t) && Valid(t)
      requires WorkIn(t) in first && first[WorkIn(t)] == work < 8
      requires DeviceIn(t) in first && first[DeviceIn(t)] == dev
      requires datum[work] == count < BUFSIZE
      modifies this`first, this`datum, this`lists, this`place
      ensures Running(t, dev) && dev < 8 && |ident| == 8 && lists == Without(old(lists), DeviceIn(t))
      ensures IsDevice(ident[dev]) && Proper(dev, Input(ident[dev]), t, datum[dev]) && ident[dev] == DeviceOf(dev)
      ensures |data| == |old(datum)| == 8 && count < |data[work]|
      ensures datum == old(datum)[dev := data[work][count]][work := count + 1]
      ensures |place| == 8 && |taskHolding| == 7 && Level() <= old(Level()) - 13 && place[dev] == Hand && !IsWork(dev)
    {
      hide Placed, Represented, Chain, Proper, FlagsMatch, BlockedAbove, Potential, With, Without;
      SizesOf(t);
      FirstIsProper(t, WorkIn(t));
      WorkFacts(t, work, ident[work], datum[work]);
      FirstIsProper(t, DeviceIn(t));
      ghost var before := datum;
      PacketMoves(place, datum, taskHolding, dev, Hand);
      var d := TakeProper(t, DeviceIn(t));
      DeviceFacts(t, d, ident[d], datum[d]);
      Fill(t, d, work, count);
      BufferFills(place, before, datum, taskHolding, d, work);
    }

    /** The letters are in order when the device packet has gone. */
    lemma LetterPassed(t: nat, work: nat, dev: nat)
      requires IsHandler(t) && Valid(t) && Letters(0, NONE)
      requires WorkIn(t) in first && first[WorkIn(t)] == work < 8
      requires DeviceIn(t) in first && first[DeviceIn(t)] == dev
      requires |datum| == 8 && datum[work] < BUFSIZE
      ensures 0 <= dev < 8 && |data| == 8 && |data[work]| == BUFSIZE && |ident| == 8 && ident[dev] == DeviceOf(dev)
      ensures var x := data[work][datum[work]];
        AllInOrder(With(Without(lists, DeviceIn(t)), Input(DeviceOf(dev)), dev), data,
          datum[dev := x][work := datum[work] + 1], passed[t := passed[t] + [x]], sent, 0, NONE)
    {
      hide Placed, Represented, Chain, FlagsMatch, BlockedAbove, AllInOrder;
      FirstIsProper(t, WorkIn(t));
      FirstIsProper(t, DeviceIn(t));
      WorkElsewhere(t, work);
      var x := data[work][datum[work]];
      var datum' := datum[dev := x][work := datum[work] + 1];
      var passed' := passed[t := passed[t] + [x]];
      AllPassed(lists, data, datum, datum', passed, sent, t, work);
      AllDelivered(lists, DeviceIn(t), lists[DeviceIn(t)][1..], data, datum', passed', sent, t, DeviceOf(dev), dev);
    }

    /** The first work packet is in no other list. */
    lemma WorkElsewhere(t: nat, work: nat)
      requires IsHandler(t) && Valid(t) && work < 8 && WorkIn(t) in first && first[WorkIn(t)] == work
      ensures WorkIn(t) in lists && lists[WorkIn(t)] != [] && lists[WorkIn(t)][0] == work
      ensures work !in lists[WorkIn(t)][1..] && |data| == 8 && |data[work]| == BUFSIZE
      ensures forall pl :: pl in lists && IsPlace(pl) && pl != WorkIn(t) ==> work !in lists[pl]
    {
      hide Represented, Chain, Proper, FlagsMatch, BlockedAbove;
      FirstIsProper(t, WorkIn(t));
      var s := lists[WorkIn(t)];
      assert work in s;
      forall k | 0 <= k < |s| - 1 ensures s[1..][k] != work {
        assert s[1..][k] == s[k + 1];
      }
    }

    /** workInAdd or deviceInAdd. */
    method Collect(t: nat, p: nat)
      requires IsHandler(t) && Running(t, p) && p < 8 && Proper(p, Input(t), ident[p], datum[p])
      modifies this`link, this`first, this`lists, this`place
      ensures Valid(t) && p < |old(place)| && place == old(place)[p := if IsWork(p) then WorkIn(t) else DeviceIn(t)]
      ensures var pl := if IsWork(p) then WorkIn(t) else DeviceIn(t);
        pl in old(lists) && lists == With(old(lists), pl, p)
    {
      hide Placed, Chain, BlockedAbove;
      var pl := if IsWork(p) then WorkIn(t) else DeviceIn(t);
      assert Proper(p, pl, ident[p], datum[p]);
      hide Proper;
      assert IsPlace(pl);
      AppendTo(p, pl);
    }

    method TakeProper(t: nat, pl: Place) returns (p: nat)
      requires Valid(t) && IsHandler(t) && (pl == WorkIn(t) || pl == DeviceIn(t)) && pl in first && first[pl] != NONE
      modifies this`first, this`lists, this`place
      ensures p < 8 && p == old(first[pl]) && Running(t, p) && Proper(p, pl, ident[p], datum[p])
      ensures p < |old(place)| && old(place[p]) == pl && place == old(place)[p := Hand]
      ensures pl in old(lists) && old(lists[pl]) != [] && old(lists[pl])[0] == p
      ensures lists == Without(old(lists), pl)
    {
      hide Placed, Chain, Proper, BlockedAbove;
      FirstIsProper(t, pl);
      p := Take(pl);
      HandIsProper(p, ident[p], datum[p]);
    }

    lemma HandlerFacts(t: nat)
      requires IsHandler(t) && Valid(t)
      ensures WorkIn(t) in first && DeviceIn(t) in first && WorkIn(t) in lists && DeviceIn(t) in lists
      ensures (first[WorkIn(t)] == NONE <==> lists[WorkIn(t)] == [])
        && (first[DeviceIn(t)] == NONE <==> lists[DeviceIn(t)] == [])
    {
      hide Chain, Placed;
      assert IsPlace(WorkIn(t)) && IsPlace(DeviceIn(t));
      assert RepresentedAt(first[WorkIn(t)], link, WorkIn(t), lists[WorkIn(t)]);
      assert RepresentedAt(first[DeviceIn(t)], link, DeviceIn(t), lists[DeviceIn(t)]);
      ChainEnds(link, first[WorkIn(t)], lists[WorkIn(t)]);
      ChainEnds(link, first[DeviceIn(t)], lists[DeviceIn(t)]);
    }

    lemma WorkFacts(t: nat, p: nat, id: nat, d: nat)
      requires IsHandler(t) && Proper(p, WorkIn(t), id, d)
      ensures IsWork(p) && id == WORK && d <= BUFSIZE && Proper(p, Input(WORK), t, d)
    {}

    lemma DeviceFacts(t: nat, p: nat, id: nat, d: nat)
      requires IsHandler(t) && Proper(p, DeviceIn(t), id, d)
      ensures !IsWork(p) && IsDevice(id) && id == DeviceOf(p) && forall d' :: Proper(p, Input(id), t, d')
    {}

    /** A character goes from the work packet to the device packet. */
    method Fill(t: nat, d: nat, work: nat, count: nat)
      requires Running(t, d) && d < 8 && work < 8 && d != work && IsHandler(t) && place[work] == WorkIn(t)
      requires count < BUFSIZE && datum[work] == count
      modifies this`datum
      ensures Running(t, d) && |old(datum)| == 8 && |data| == 8 && count < |data[work]|
      ensures datum == old(datum)[d := data[work][count]][work := count + 1]
    {
      hide Placed, Represented, FlagsMatch, BlockedAbove;
      datum := datum[d := data[work][count]];
      datum := datum[work := count + 1];
    }

    /** The device that the idle task lets go on: the shift register's lowest bit decides. */
    function Released(c: bv16): nat {
      if c & 1 == 0 then DEVA else DEVB
    }

    function NextControl(c: bv16): bv16 {
      if c & 1 == 0 then c / 2 else (c / 2) ^ 0xd008
    }

    method FnIdle() returns (next: nat)
      requires Valid(IDLE)
      modifies this`idleCount, this`control, this`taskHolding, this`holdCount
      ensures Valid(next) && idleCount == old(idleCount) - 1
      ensures idleCount == 0 ==>
        && next == NextTask(IDLE) && taskHolding == old(taskHolding)[IDLE := true]
        && control == old(control) && holdCount == old(holdCount) + 1
      ensures idleCount != 0 ==>
        && next == Released(old(control)) && taskHolding == old(taskHolding)[next := false]
        && control == NextControl(old(control)) && holdCount == old(holdCount)
    {
      hide Placed, Represented, Chain, Proper, FlagsMatch, BlockedAbove;
      SizesOf(IDLE);
      idleCount := idleCount - 1;
      if idleCount == 0 {
        next := Hold(IDLE);
      } else if control & 1 == 0 {
        control := control >> 1;
        next := Release(IDLE, DEVA);
      } else {
        control := (control >> 1) ^ 0xd008;
        next := Release(IDLE, DEVB);
      }
    }

    method FnWork(pkt: int) returns (next: nat)
      requires Running(WORK, pkt) && -1 <= pkt < 8 && !taskWaiting[WORK] && Letters(WORK, pkt)
      requires pkt != NONE ==> Proper(pkt, Input(WORK), ident[pkt], datum[pkt])
      modifies this`first, this`link, this`ident, this`datum, this`data, this`packetPending, this`taskWaiting,
        this`destination, this`workCount, this`qpktCount, this`lists, this`place, this`sent
      ensures Valid(next) && Letters(0, NONE)
      ensures pkt != NONE ==>
        && destination == OtherHandler(old(destination)) && sent == old(sent) + 1
        && Delivered(old(lists), WORK, destination, pkt, next)
        && |old(place)| == |old(datum)| == |old(data)| == 8
        && place == old(place)[pkt := Input(destination)] && datum == old(datum)[pkt := 0]
        && data == old(data)[pkt := LettersFrom(old(workCount))] && taskWaiting == old(taskWaiting)
      ensures pkt == NONE ==> Sleeps(WORK, next) && sent == old(sent) && data == old(data)
      ensures pkt == NONE ==> destination == old(destination) && workCount == old(workCount)
      ensures pkt != NONE ==> Level() < old(Level() + Weight(pkt, Input(WORK), datum[pkt], taskHolding))
      ensures pkt == NONE ==> Level() == old(Level()) && Unasleep() < old(Unasleep())
    {
      hide Placed, Represented, Chain, Proper, FlagsMatch, BlockedAbove, Potential, AllInOrder;
      if pkt == NONE {
        EmptyHand(WORK);
        SizesOf(WORK);
        next := WaitTask(WORK);
      } else {
        next := SendWork(pkt);
      }
    }

    /** The packet is filled and goes to the handler that did not get the last one. */
    method SendWork(pkt: nat) returns (next: nat)
      requires Running(WORK, pkt) && pkt < 8 && !taskWaiting[WORK] && Letters(WORK, pkt)
      requires Proper(pkt, Input(WORK), ident[pkt], datum[pkt])
      modifies this`first, this`link, this`ident, this`datum, this`data, this`packetPending,
        this`destination, this`workCount, this`qpktCount, this`lists, this`place, this`sent
      ensures Valid(next) && Letters(0, NONE)
      ensures destination == OtherHandler(old(destination)) && sent == old(sent) + 1
      ensures Delivered(old(lists), WORK, destination, pkt, next)
      ensures |old(place)| == |old(datum)| == |old(data)| == |place| == 8 && |taskHolding| == 7
      ensures place == old(place)[pkt := Input(destination)] && datum == old(datum)[pkt := 0]
      ensures data == old(data)[pkt := LettersFrom(old(workCount))]
      ensures Level() < old(Level() + Weight(pkt, Input(WORK), datum[pkt], taskHolding))
    {
      hide Placed, Represented, Chain, Proper, FlagsMatch, BlockedAbove, Potential, AllInOrder, With, Without,
        Receiver, CountAt;
      FillWork(pkt);
      PacketMoves(place, datum, taskHolding, pkt, Input(destination));
      sent := sent + 1;
      next := Qpkt(WORK, pkt);
    }

    /** The other handler's turn, and four more letters. */
    method FillWork(pkt: nat)
      requires Running(WORK, pkt) && pkt < 8 && Letters(WORK, pkt)
      requires Proper(pkt, Input(WORK), ident[pkt], datum[pkt])
      modifies this`ident, this`datum, this`data, this`destination, this`workCount
      ensures Running(WORK, pkt) && destination == OtherHandler(old(destination)) && IsHandler(destination)
      ensures |old(ident)| == |ident| == 8 && ident == old(ident)[pkt := destination] && IsWork(pkt)
      ensures Proper(pkt, Input(destination), WORK, datum[pkt])
      ensures |place| == |old(datum)| == |old(data)| == 8 && |taskHolding| == 7 && place[pkt] == Hand
      ensures datum == old(datum)[pkt := 0] && data == old(data)[pkt := LettersFrom(old(workCount))]
      ensures destination == Receiver(sent + 2) && workCount == CountAt(4 * (sent + 1)) && |passed| == 7
      ensures AllInOrder(With(lists, Input(destination), pkt), data, datum, passed, sent + 1, 0, NONE)
      ensures Level() == old(Level())
    {
      hide Placed, Represented, Chain, Proper, FlagsMatch, BlockedAbove, Potential, AllInOrder, With, Receiver, CountAt;
      TurnsAlternate(sent);
      var dest := if destination == HANDLERA then HANDLERB else HANDLERA;
      destination := dest;
      HandWeighsNothing(WORK, pkt);
      WorkInput(pkt, ident[pkt], datum[pkt]);
      PotentialMoves(place, place, datum, datum[pkt := 0], taskHolding, taskHolding, pkt, 8);
      Prepare(pkt, dest);
    }

    /** What is in the hand is in no list. */
    lemma HandIsNowhere(t: nat, p: nat)
      requires Running(t, p) && p < 8
      ensures forall pl :: pl in lists && IsPlace(pl) ==> p !in lists[pl]
      ensures Input(HANDLERA) in lists && Input(HANDLERB) in lists && |data| == |datum| == 8
    {
      hide Represented, Chain, Proper, FlagsMatch, BlockedAbove;
      assert IsPlace(Input(HANDLERA)) && IsPlace(Input(HANDLERB));
      forall pl | pl in lists && IsPlace(pl) ensures p !in lists[pl] {
        assert p in lists[pl] <==> place[p] == pl;
      }
    }

    lemma WorkInput(p: nat, id: nat, d: nat)
      requires Proper(p, Input(WORK), id, d)
      ensures IsWork(p)
    {}

    /** A fresh work packet for a handler. */
    method Prepare(p: nat, dest: nat)
      requires Running(WORK, p) && p < 8 && IsHandler(dest) && Proper(p, Input(WORK), ident[p], datum[p])
      requires workCount == CountAt(4 * sent) && AllInOrder(lists, data, datum, passed, sent, WORK, p)
      requires dest == Receiver(sent) && IsWork(p)
      modifies this`ident, this`datum, this`data, this`workCount
      ensures Running(WORK, p) && ident[p] == dest && Proper(p, Input(dest), WORK, datum[p])
      ensures p < |old(datum)| && datum == old(datum)[p := 0] && |data| == |old(data)| == |ident| == |old(ident)| == 8
      ensures ident == old(ident)[p := dest]
      ensures data == old(data)[p := LettersFrom(old(workCount))] && workCount == CountAt(4 * (sent + 1))
      ensures Input(dest) in lists
      ensures AllInOrder(With(lists, Input(dest), p), data, datum, passed, sent + 1, 0, NONE)
    {
      hide Placed, Represented, FlagsMatch, BlockedAbove, Letter, CountAt, AllInOrder;
      HandIsNowhere(WORK, p);
      ident := ident[p := dest];
      datum := datum[p := 0];
      ghost var others := data;
      for i := 0 to BUFSIZE
        invariant |data| == 8 && forall q: nat :: q < 8 ==> |data[q]| == BUFSIZE
        invariant ident == old(ident)[p := dest] && datum == old(datum)[p := 0]
        invariant workCount == CountAt(4 * sent + i)
        invariant forall q: nat :: q < 8 && q != p ==> data[q] == others[q]
        invariant forall k :: 0 <= k < i ==> data[p][k] == Letter(4 * sent + k)
      {
        CountGoesOn(4 * sent + i);
        workCount := workCount + 1;
        if workCount > 26 {
          workCount := 1;
        }
        var letter: nat := 'A' as nat + workCount - 1;
        var filled: seq<nat> := data[p][i := letter];
        data := data[p := filled];
      }
      assert data[p] == LettersOf(sent);
      assert data == others[p := LettersOf(sent)];
      LettersFollow(sent);
      AllSent(lists, old(data), old(datum), data, datum, passed, sent, p);
    }

    // -------------------------------------------------------------------
    // Scheduling
    // -------------------------------------------------------------------

    /** Runs the task of highest priority that is not blocked. */
    method RunTask(t: nat) returns (next: nat)
      requires IsTask(t) && Valid(t) && !Blocked(t) && IdleCounts() && Letters(0, NONE)
      modifies this
      ensures Valid(next) && IdleCounts() && Letters(0, NONE)
      ensures t == IDLE ==> idleCount < old(idleCount)
      ensures t != IDLE ==> idleCount == old(idleCount)
      ensures t != IDLE ==> Level() < old(Level()) || (Level() == old(Level()) && Unasleep() < old(Unasleep()))
    {
      hide Placed, Represented, Chain, Proper, Potential, FlagsMatch, BlockedAbove;
      SizesOf(t);
      var msg: int := NONE;
      if packetPending[t] && taskWaiting[t] && !taskHolding[t] {
        ghost var before := place;
        msg := TakeInput(t);
        assert taskHolding == old(taskHolding);
        PacketMoves(before, datum, taskHolding, msg, Hand);
      }
      next := RunKind(t, msg);
    }

    /** The idle task holds when its count is used up, so that it never runs again. */
    ghost predicate IdleCounts()
      reads this`idleCount, this`taskHolding, this`taskWaiting
    {
      && |taskHolding| == |taskWaiting| == 7 && idleCount >= 0
      && (idleCount == 0 <==> taskHolding[IDLE]) && !taskWaiting[IDLE]
    }

    method RunKind(t: nat, msg: int) returns (next: nat)
      requires IsTask(t) && Running(t, msg) && -1 <= msg < 8 && !taskWaiting[t] && !taskHolding[t] && IdleCounts()
      requires Letters(t, msg)
      requires msg != NONE ==> Proper(msg, Input(t), ident[msg], datum[msg]) && t != IDLE
      requires msg != NONE && IsDevice(t) ==> lists[Pending(t)] == []
      modifies this
      ensures Valid(next) && IdleCounts() && Letters(0, NONE)
      ensures t == IDLE ==> idleCount < old(idleCount)
      ensures t != IDLE ==> idleCount == old(idleCount)
      ensures t != IDLE && msg != NONE ==> Level() < old(Level() + Weight(msg, Input(t), datum[msg], taskHolding))
      ensures t != IDLE && msg == NONE ==>
        Level() < old(Level()) || (Level() == old(Level()) && Unasleep() < old(Unasleep()))
    {
      hide Placed, Represented, Chain, Proper, Potential, FlagsMatch, BlockedAbove;
      if t == IDLE {
        next := FnIdle();
      } else if t == WORK {
        next := FnWork(msg);
      } else if IsHandler(t) {
        next := FnHandler(t, msg);
      } else {
        next := FnDevice(t, msg);
      }
      SizesOf(next);
    }

    /** The task takes a packet from its input; more packets keep its flag up. */
    method TakeInput(t: nat) returns (p: nat)
      requires IsTask(t) && Valid(t) && packetPending[t] && taskWaiting[t] && Letters(0, NONE)
      modifies this`first, this`packetPending, this`taskWaiting, this`taskHolding, this`lists, this`place
      ensures t != IDLE && p < 8 && Running(t, p) && Proper(p, Input(t), ident[p], datum[p]) && Letters(t, p)
      ensures !taskWaiting[t] && (IsDevice(t) ==> lists[Pending(t)] == [])
      ensures p < |old(place)| && old(place[p]) == Input(t) && place == old(place)[p := Hand]
      ensures t < |old(taskHolding)| && taskHolding == old(taskHolding)[t := false]
      ensures t < |old(taskWaiting)| && taskWaiting == old(taskWaiting)[t := false]
    {
      hide Placed, Chain, Proper, Represented, Held, AllProper, AllInOrder;
      InputFacts(t);
      p := TakeFromInput(t);
      packetPending := packetPending[t := first[Input(t)] != NONE];
      taskWaiting := taskWaiting[t := false];
      taskHolding := taskHolding[t := false];
      forall u: nat | t < u <= 6 ensures Blocked(u) {
        assert old(Blocked(u));
      }
    }

    /** The first packet of the input comes into the hand; the flags are still to be set. */
    method TakeFromInput(t: nat) returns (p: nat)
      requires IsTask(t) && Valid(t) && packetPending[t] && Letters(0, NONE)
      modifies this`first, this`lists, this`place
      ensures Input(t) in old(lists) && old(lists[Input(t)]) != [] && lists == Without(old(lists), Input(t))
      ensures t != IDLE && p < 8 && Held(p) && AllProper() && Proper(p, Input(t), ident[p], datum[p]) && Letters(t, p)
      ensures p < |old(place)| && old(place[p]) == Input(t) && place == old(place)[p := Hand]
      ensures Input(t) in first && (first[Input(t)] == NONE <==> lists[Input(t)] == [])
    {
      hide Placed, Chain, Proper, Represented, BlockedAbove, AllInOrder;
      InputFacts(t);
      FirstIsProper(t, Input(t));
      AllTaken(lists, data, datum, passed, sent, t);
      p := Take(Input(t));
      HandIsProper(p, ident[p], datum[p]);
    }

    lemma InputFacts(t: nat)
      requires IsTask(t) && Valid(t)
      ensures Input(t) in first && Input(t) in lists && (first[Input(t)] == NONE <==> lists[Input(t)] == [])
    {
      hide Placed;
      assert RepresentedAt(first[Input(t)], link, Input(t), lists[Input(t)]);
      ChainEnds(link, first[Input(t)], lists[Input(t)]);
    }

    /** A blocked task is passed over. */
    lemma SkipTask(t: nat) returns (next: nat)
      requires IsTask(t) && Valid(t) && Blocked(t)
      ensures next == NextTask(t) && Valid(next)
    {
      hide Placed, Represented, Chain, Proper;
      next := NextTask(t);
    }

    /**
      The loop of schedule. It ends, and then every task is blocked. A task is run only when
      it is not blocked itself but every task of higher priority is.
     */
    method Schedule(start: nat)
      requires Valid(start) && IdleCounts() && Letters(0, NONE)
      modifies this
      ensures Valid(0) && Letters(0, NONE) && forall t: nat :: IsTask(t) ==> Blocked(t)
      ensures idleCount == 0
    {
      hide Placed, Represented, Chain, Proper, FlagsMatch, Potential, Running;
      var t := start;
      SizesOf(t);
      while t != 0
        invariant Valid(t) && IdleCounts() && Letters(0, NONE)
        invariant |place| == |datum| == 8 && |taskHolding| == |taskWaiting| == |packetPending| == 7
        decreases idleCount, Level(), Unasleep(), t
      {
        SizesOf(t);
        if Blocked(t) {
          ghost var below := SkipTask(t);
          t := NextTask(t);
        } else {
          t := RunTask(t);
        }
        SizesOf(t);
      }
      AllBlocked();
      assert Blocked(IDLE);
    }

    lemma AllBlocked()
      requires Valid(0)
      ensures |taskHolding| == |taskWaiting| == |packetPending| == 7 && forall t: nat :: IsTask(t) ==> Blocked(t)
    {
      hide Placed, Represented, Chain, Proper;
    }
  }

  /** What handler `h` has passed on is the first part of what it is to pass on. */
  lemma PassedInOrder(s: Scheduler, h: nat)
    requires s.Letters(0, NONE) && IsHandler(h)
    ensures s.passed[h] <= LettersFor(h, s.sent)
  {
    hide UnreadIn, LettersFor;
    assert InOrder(h, s.lists, s.data, s.datum, s.passed[h], s.sent, InHand(h, 0, NONE));
  }

  /**
    Richards.run without its final comparison of the two counters. The idle task has counted
    down, and the devices have got the letters in the order in which they were written.
   */
  method Run() returns (scheduler: Scheduler)
    ensures fresh(scheduler) && scheduler.Valid(0) && scheduler.idleCount == 0
    ensures forall t: nat :: IsTask(t) ==> scheduler.Blocked(t)
    ensures |scheduler.passed| == 7
    ensures forall h: nat :: IsHandler(h) ==> scheduler.passed[h] <= LettersFor(h, scheduler.sent)
  {
    scheduler := new Scheduler();
    scheduler.Schedule(DEVB);
    PassedInOrder(scheduler, HANDLERA);
    PassedInOrder(scheduler, HANDLERB);
  }
}
