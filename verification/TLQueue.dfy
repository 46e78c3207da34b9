/**
  The condition-variable queue of multithread/common/abstract_threading.py as a
  transition system. A step is one action of one thread that no other thread can see
  half done: an append or a pop, taking or releasing the lock of the condition, a
  notification, or going to sleep on the condition (which releases the lock).
 */
module TLQueue {
  import opened Options
  import opened Locks

  type Value = int

  /** Where a thread is in `put` or `get`. */
  datatype Pc =
    | Idle
    | PutAppend(v: Value)  // about to append v, without the lock
    | PutLock              // has appended, wants the lock
    | PutNotify            // holds the lock, about to wake everybody
    | PutUnlock            // holds the lock
    | GetTry               // first look at the list, without the lock
    | GetLock              // wants the lock
    | GetCheck             // holds the lock, about to look again
    | GetWait              // holds the lock, has found the list empty
    | Waiting              // asleep
    | Notified             // woken, wants the lock back
    | GetUnlock            // holds the lock again, about to start over
    | GetReturn            // holds the lock, has an item

  datatype State = State(
    items: seq<Value>,
    owner: Option<Thread>,
    pc: map<Thread, Pc>,
    appended: multiset<Value>,
    delivered: multiset<Value>,
    log: seq<Event>)

  /** What happened to the list: an item was appended by `put`, or delivered by `get`. */
  datatype Event = Put(v: Value) | Got(v: Value)

  /** The items that were put and not delivered yet, in the order in which they were put. */
  function Queued(log: seq<Event>): seq<Value> {
    if log == [] then []
    else
      var before := Queued(log[..|log| - 1]);
      match log[|log| - 1]
      case Put(v) => before + [v]
      case Got(v) => if v in before then before[..LastOf(v, before)] + before[LastOf(v, before) + 1..] else before
  }

  /** Where `v` was put most recently. */
  function LastOf(v: Value, s: seq<Value>): (k: nat)
    requires v in s
    ensures k < |s| && s[k] == v && v !in s[k + 1..]
  {
    if s[|s| - 1] == v then |s| - 1
    else
      assert s == s[..|s| - 1] + [s[|s| - 1]];
      LastOf(v, s[..|s| - 1])
  }

  /** Every delivery was of the item that had been put most recently of those still queued. */
  predicate LastInFirstOut(log: seq<Event>) {
    forall k :: 0 <= k < |log| && log[k].Got? ==>
      Queued(log[..k]) != [] && log[k].v == Queued(log[..k])[|Queued(log[..k])| - 1]
  }

  predicate Holds(pc: Pc) {
    pc in {PutNotify, PutUnlock, GetCheck, GetWait, GetUnlock, GetReturn}
  }

  predicate WantsLock(pc: Pc) {
    pc in {PutLock, GetLock, Notified}
  }

  /** Has appended an item and still has to notify. */
  predicate OwesNotify(pc: Pc) {
    pc in {PutLock, PutNotify}
  }

  /** Is asleep, or has decided to be on the ground that the list was empty. */
  predicate Sleeps(pc: Pc) {
    pc in {GetWait, Waiting}
  }

  /** The next state of a thread that takes the last item of the list. */
  function Take(s: State, t: Thread, next: Pc): State
    requires s.items != []
  {
    var last := |s.items| - 1;
    s.(items := s.items[..last], delivered := s.delivered + multiset{s.items[last]},
      log := s.log + [Got(s.items[last])], pc := s.pc[t := next])
  }

  /** One action of thread `t`. */
  ghost predicate Step(s: State, t: Thread, s': State) {
    && t in s.pc
    && match s.pc[t]
       case Idle => s' == s.(pc := s.pc[t := GetTry]) || exists v :: s' == s.(pc := s.pc[t := PutAppend(v)])
       case PutAppend(v) =>
         s' == s.(items := s.items + [v], appended := s.appended + multiset{v}, log := s.log + [Put(v)],
           pc := s.pc[t := PutLock])
       case PutLock => s.owner == None && s' == s.(owner := Some(t), pc := s.pc[t := PutNotify])
       case PutNotify => s' == s.(pc := Wake(s.pc, Waiting, Notified)[t := PutUnlock])
       case PutUnlock => s' == s.(owner := None, pc := s.pc[t := Idle])
       case GetTry => s' == if s.items != [] then Take(s, t, Idle) else s.(pc := s.pc[t := GetLock])
       case GetLock => s.owner == None && s' == s.(owner := Some(t), pc := s.pc[t := GetCheck])
       case GetCheck => s' == if s.items != [] then Take(s, t, GetReturn) else s.(pc := s.pc[t := GetWait])
       case GetWait => s' == s.(owner := None, pc := s.pc[t := Waiting])
       case Waiting => false
       case Notified => s.owner == None && s' == s.(owner := Some(t), pc := s.pc[t := GetUnlock])
       case GetUnlock => s' == s.(owner := None, pc := s.pc[t := GetLock])
       case GetReturn => s' == s.(owner := None, pc := s.pc[t := Idle])
  }

  /** If anyone sleeps although there is an item, someone is still going to notify. */
  ghost predicate NoLostWakeup(s: State) {
    forall g :: g in s.pc && Sleeps(s.pc[g]) && s.items != [] ==> exists p :: p in s.pc && OwesNotify(s.pc[p])
  }

  ghost predicate Inv(s: State) {
    && Exclusive(s.owner, s.pc, Holds)
    && s.appended == s.delivered + multiset(s.items)
    && s.items == Queued(s.log) && LastInFirstOut(s.log)
    && NoLostWakeup(s)
  }

  ghost predicate Init(s: State) {
    && s.items == [] && s.owner == None && s.appended == multiset{} == s.delivered && s.log == []
    && forall t :: t in s.pc ==> s.pc[t] == Idle
  }

  lemma InitHasInv(s: State)
    requires Init(s)
    ensures Inv(s)
  {}

  lemma TakeConserves(s: State, t: Thread, next: Pc)
    requires s.items != [] && s.appended == s.delivered + multiset(s.items)
    ensures var s' := Take(s, t, next); s'.appended == s'.delivered + multiset(s'.items)
  {
    var last := |s.items| - 1;
    assert s.items == s.items[..last] + [s.items[last]];
  }

  /** Nothing is lost and nothing is delivered twice, in any interleaving. */
  lemma StepConserves(s: State, t: Thread, s': State)
    requires s.appended == s.delivered + multiset(s.items) && Step(s, t, s')
    ensures s'.appended == s'.delivered + multiset(s'.items)
  {
    if s.pc[t].GetTry? && s.items != [] {
      TakeConserves(s, t, Idle);
    } else if s.pc[t].GetCheck? && s.items != [] {
      TakeConserves(s, t, GetReturn);
    }
  }

  lemma LogGrows(log: seq<Event>, e: Event)
    requires LastInFirstOut(log)
    requires e.Got? ==> Queued(log) != [] && e.v == Queued(log)[|Queued(log)| - 1]
    ensures LastInFirstOut(log + [e])
    ensures Queued(log + [e]) == if e.Put? then Queued(log) + [e.v] else Queued(log)[..|Queued(log)| - 1]
  {
    var longer := log + [e];
    assert longer[..|log|] == log;
    forall k | 0 <= k < |log| ensures longer[..k] == log[..k] && longer[k] == log[k] {
    }
  }

  /** What is delivered is the most recently appended item that is still queued, in any interleaving. */
  lemma StepKeepsOrder(s: State, t: Thread, s': State)
    requires s.items == Queued(s.log) && LastInFirstOut(s.log) && Step(s, t, s')
    ensures s'.items == Queued(s'.log) && LastInFirstOut(s'.log)
  {
    hide LastInFirstOut, Queued;
    if s'.log != s.log {
      LogGrows(s.log, s'.log[|s.log|]);
    }
  }

  lemma StepKeepsExclusive(s: State, t: Thread, s': State)
    requires Exclusive(s.owner, s.pc, Holds) && Step(s, t, s')
    ensures Exclusive(s'.owner, s'.pc, Holds)
  {
    assert forall u :: u in s'.pc ==> u in s.pc;
  }

  lemma StepKeepsNoLostWakeup(s: State, t: Thread, s': State)
    requires Exclusive(s.owner, s.pc, Holds) && NoLostWakeup(s) && Step(s, t, s')
    ensures NoLostWakeup(s')
  {
    if s'.items != [] {
      if s.pc[t].PutAppend? || s.pc[t].PutLock? {
        assert OwesNotify(s'.pc[t]);
      } else if s.pc[t].PutNotify? {
        forall g | g in s'.pc ensures !Sleeps(s'.pc[g]) {
          assert g in s.pc;
          assert Holds(s.pc[t]);
        }
      } else {
        forall g | g in s'.pc && Sleeps(s'.pc[g]) ensures exists p :: p in s'.pc && OwesNotify(s'.pc[p]) {
          assert g in s.pc && Sleeps(s.pc[g]);
          var p :| p in s.pc && OwesNotify(s.pc[p]);
          assert s'.pc[p] == s.pc[p];
        }
      }
    }
  }

  lemma StepKeepsInv(s: State, t: Thread, s': State)
    requires Inv(s) && Step(s, t, s')
    ensures Inv(s')
  {
    StepConserves(s, t, s');
    StepKeepsOrder(s, t, s');
    StepKeepsExclusive(s, t, s');
    StepKeepsNoLostWakeup(s, t, s');
  }

  ghost predicate Next(s: State, s': State) {
    exists t :: Step(s, t, s')
  }

  ghost predicate IsRun(run: seq<State>) {
    run != [] && Init(run[0]) && forall k :: 0 <= k < |run| - 1 ==> Next(run[k], run[k + 1])
  }

  /** Every state that any interleaving of putters and getters can reach. */
  lemma {:induction false} RunKeepsInv(run: seq<State>)
    requires IsRun(run)
    ensures Inv(run[|run| - 1])
  {
    hide Step, Inv, Init;
    if |run| == 1 {
      InitHasInv(run[0]);
    } else {
      var k := |run| - 2;
      RunKeepsInv(run[..|run| - 1]);
      assert Next(run[k], run[k + 1]);
      var t :| Step(run[k], t, run[k + 1]);
      StepKeepsInv(run[k], t, run[k + 1]);
    }
  }

  /** In the middle of `get`. */
  predicate Getting(pc: Pc) {
    pc in {GetTry, GetLock, GetCheck, GetWait, Waiting, Notified, GetUnlock, GetReturn}
  }

  /** Able to act without starting a new call. */
  predicate Ready(s: State, t: Thread) {
    t in s.pc && s.pc[t] != Idle && s.pc[t] != Waiting && (WantsLock(s.pc[t]) ==> s.owner == None)
  }

  lemma ReadySteps(s: State, t: Thread)
    requires Ready(s, t)
    ensures exists s' :: Step(s, t, s')
  {
    var s' := match s.pc[t]
      case PutAppend(v) =>
        s.(items := s.items + [v], appended := s.appended + multiset{v}, log := s.log + [Put(v)],
           pc := s.pc[t := PutLock])
      case PutLock => s.(owner := Some(t), pc := s.pc[t := PutNotify])
      case PutNotify => s.(pc := Wake(s.pc, Waiting, Notified)[t := PutUnlock])
      case PutUnlock => s.(owner := None, pc := s.pc[t := Idle])
      case GetTry => if s.items != [] then Take(s, t, Idle) else s.(pc := s.pc[t := GetLock])
      case GetLock => s.(owner := Some(t), pc := s.pc[t := GetCheck])
      case GetCheck => if s.items != [] then Take(s, t, GetReturn) else s.(pc := s.pc[t := GetWait])
      case GetWait => s.(owner := None, pc := s.pc[t := Waiting])
      case Notified => s.(owner := Some(t), pc := s.pc[t := GetUnlock])
      case GetUnlock => s.(owner := None, pc := s.pc[t := GetLock])
      case GetReturn => s.(owner := None, pc := s.pc[t := Idle])
      case _ => s;
    assert Step(s, t, s');
  }

  /** As long as there is an item and a getter, some thread inside a call can act: nobody oversleeps. */
  lemma NeverStuckWithItems(s: State, g: Thread)
    requires Inv(s) && s.items != [] && g in s.pc && Getting(s.pc[g])
    ensures exists t, s' :: Ready(s, t) && Step(s, t, s')
  {
    var t: Thread;
    if s.owner.Some? {
      t := s.owner.value;
    } else if s.pc[g] != Waiting {
      t := g;
    } else {
      t :| t in s.pc && OwesNotify(s.pc[t]);
    }
    ReadySteps(s, t);
  }
}
