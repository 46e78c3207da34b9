/**
  The futures of multithread/common/abstract_threading.py. The task runs while it holds the lock of the
  condition; any number of threads may call the future.
 */
module Futures {
  import opened Options
  import opened Locks

  /** How the function ends: with a value, an `Exception`, or an exit that is not one. */
  datatype Outcome = Value(v: int) | Raises(e: int) | Exits

  /** What a call of the future gives: what the task stored, or `None` if it stored nothing. */
  datatype Answer = Returned(v: int) | Raised(e: int) | ReturnedNone

  datatype Pc =
    | TaskLock             // the worker wants the lock
    | TaskRun              // holds it, about to run the function and store what it gives
    | TaskDone             // about to set the flag
    | TaskNotify           // about to wake everybody
    | TaskUnlock
    | TaskOver
    | CallTest             // a caller, about to look at the flag without the lock
    | CallLock
    | CallCheck            // holds the lock, about to look at the flag
    | CallWait             // holds the lock, has found the flag unset
    | Waiting
    | Notified
    | CallUnlock
    | CallRead             // about to read what is stored
    | CallOver(answer: Answer)

  datatype State = State(
    done: bool,
    result: Option<int>,
    exception: Option<int>,
    owner: Option<Thread>,
    pc: map<Thread, Pc>)

  predicate Holds(pc: Pc) {
    pc in {TaskRun, TaskDone, TaskNotify, TaskUnlock, CallCheck, CallWait, CallUnlock}
  }

  /** An exception is looked for first; without either, the result field still holds None. */
  function Read(s: State): Answer {
    if s.exception.Some? then Raised(s.exception.value)
    else if s.result.Some? then Returned(s.result.value)
    else ReturnedNone
  }

  function Store(s: State, outcome: Outcome): State {
    match outcome
    case Value(v) => s.(result := Some(v))
    case Raises(e) => s.(exception := Some(e))
    case Exits => s
  }

  /** One action of thread `t`, where the function ends with `outcome`. */
  function Step(s: State, t: Thread, outcome: Outcome): (s': State)
    requires Ready(s, t)
  {
    match s.pc[t]
    case TaskLock => s.(owner := Some(t), pc := s.pc[t := TaskRun])
    case TaskRun => Store(s, outcome).(pc := s.pc[t := TaskDone])
    case TaskDone => s.(done := true, pc := s.pc[t := TaskNotify])
    case TaskNotify => s.(pc := Wake(s.pc, Waiting, Notified)[t := TaskUnlock])
    case TaskUnlock => s.(owner := None, pc := s.pc[t := TaskOver])
    case CallTest => s.(pc := s.pc[t := if s.done then CallRead else CallLock])
    case CallLock => s.(owner := Some(t), pc := s.pc[t := CallCheck])
    case CallCheck => s.(pc := s.pc[t := if s.done then CallUnlock else CallWait])
    case CallWait => s.(owner := None, pc := s.pc[t := Waiting])
    case Notified => s.(owner := Some(t), pc := s.pc[t := CallCheck])
    case CallUnlock => s.(owner := None, pc := s.pc[t := CallRead])
    case CallRead => s.(pc := s.pc[t := CallOver(Read(s))])
    case _ => s
  }

  /** Neither over nor asleep, and not kept out by the lock. */
  predicate Ready(s: State, t: Thread) {
    && t in s.pc
    && s.pc[t] != TaskOver && s.pc[t] != Waiting && !s.pc[t].CallOver?
    && (s.pc[t] in {TaskLock, CallLock, Notified} ==> s.owner == None)
  }

  /** What the task's outcome makes every call give. */
  function Promised(outcome: Outcome): Answer {
    match outcome
    case Value(v) => Returned(v)
    case Raises(e) => Raised(e)
    case Exits => ReturnedNone
  }

  /** The worker, thread 0, is the only one to run the task; its position tells what is stored. */
  ghost predicate Stored(s: State, outcome: Outcome) {
    && 0 in s.pc
    && s.pc[0] in {TaskLock, TaskRun, TaskDone, TaskNotify, TaskUnlock, TaskOver}
    && (forall t :: t in s.pc && t != 0 ==> s.pc[t] !in {TaskLock, TaskRun, TaskDone, TaskNotify, TaskUnlock, TaskOver})
    && (s.done <==> s.pc[0] in {TaskNotify, TaskUnlock, TaskOver})
    && (if s.pc[0] in {TaskLock, TaskRun} then s.result == None && s.exception == None
        else Read(s) == Promised(outcome))
  }

  ghost predicate Calls(s: State, outcome: Outcome) {
    && (forall t :: t in s.pc && s.pc[t] in {CallUnlock, CallRead} ==> s.done)
    && (forall t :: t in s.pc && s.pc[t].CallOver? ==> s.done && s.pc[t].answer == Promised(outcome))
    && (forall t :: t in s.pc && s.pc[t] in {CallWait, Waiting} ==> 0 in s.pc && (!s.done || s.pc[0] == TaskNotify))
  }

  ghost predicate Inv(s: State, outcome: Outcome) {
    Exclusive(s.owner, s.pc, Holds) && Stored(s, outcome) && Calls(s, outcome)
  }

  ghost predicate Init(s: State) {
    && !s.done && s.result == None && s.exception == None && s.owner == None
    && 0 in s.pc && s.pc[0] == TaskLock
    && forall t :: t in s.pc && t != 0 ==> s.pc[t] == CallTest
  }

  lemma StepKeepsExclusive(s: State, t: Thread, outcome: Outcome)
    requires Exclusive(s.owner, s.pc, Holds) && Ready(s, t)
    ensures var s' := Step(s, t, outcome); Exclusive(s'.owner, s'.pc, Holds)
  {}

  lemma StepKeepsStored(s: State, t: Thread, outcome: Outcome)
    requires Exclusive(s.owner, s.pc, Holds) && Stored(s, outcome) && Ready(s, t)
    ensures Stored(Step(s, t, outcome), outcome)
  {}

  lemma StepKeepsCalls(s: State, t: Thread, outcome: Outcome)
    requires Inv(s, outcome) && Ready(s, t)
    ensures Calls(Step(s, t, outcome), outcome)
  {}

  lemma StepKeepsInv(s: State, t: Thread, outcome: Outcome)
    requires Inv(s, outcome) && Ready(s, t)
    ensures Inv(Step(s, t, outcome), outcome)
  {
    StepKeepsExclusive(s, t, outcome);
    StepKeepsStored(s, t, outcome);
    StepKeepsCalls(s, t, outcome);
  }

  ghost predicate Next(s: State, s': State, outcome: Outcome) {
    exists t :: Ready(s, t) && s' == Step(s, t, outcome)
  }

  ghost predicate IsRun(run: seq<State>, outcome: Outcome) {
    run != [] && Init(run[0]) && forall k :: 0 <= k < |run| - 1 ==> Next(run[k], run[k + 1], outcome)
  }

  lemma {:induction false} RunKeepsInv(run: seq<State>, outcome: Outcome)
    requires IsRun(run, outcome)
    ensures Inv(run[|run| - 1], outcome)
  {
    hide Inv, Step, Ready;
    if |run| == 1 {
      InitHasInv(run[0], outcome);
    } else {
      var k := |run| - 2;
      RunKeepsInv(run[..|run| - 1], outcome);
      assert Next(run[k], run[k + 1], outcome);
      var t :| Ready(run[k], t) && run[k + 1] == Step(run[k], t, outcome);
      StepKeepsInv(run[k], t, outcome);
    }
  }

  lemma InitHasInv(s: State, outcome: Outcome)
    requires Init(s)
    ensures Inv(s, outcome)
  {}

  /**
    In any interleaving a call that is over has given what the function gave, and the
    fields held it by then; except that after an exit, and only then, nothing was
    stored and the call gives None.
   */
  lemma CallsGiveTheOutcome(run: seq<State>, outcome: Outcome, t: Thread)
    requires IsRun(run, outcome) && t in run[|run| - 1].pc && run[|run| - 1].pc[t].CallOver?
    ensures var s := run[|run| - 1];
      && s.done && s.pc[t].answer == Promised(outcome) == Read(s)
      && (s.result == None && s.exception == None <==> outcome == Exits)
  {
    RunKeepsInv(run, outcome);
  }

  ghost predicate Quiet(s: State) {
    forall t :: t in s.pc ==> !Ready(s, t)
  }

  /** When nobody can act any more, the task is over and every call has given its answer. */
  lemma NobodyIsLeftWaiting(run: seq<State>, outcome: Outcome)
    requires IsRun(run, outcome)
    requires Quiet(run[|run| - 1])
    ensures var s := run[|run| - 1];
      forall t :: t in s.pc ==> if t == 0 then s.pc[t] == TaskOver else s.pc[t] == CallOver(Promised(outcome))
  {
    RunKeepsInv(run, outcome);
    var s := run[|run| - 1];
    if s.owner.Some? {
      assert Ready(s, s.owner.value);
    }
    forall t | t in s.pc ensures if t == 0 then s.pc[t] == TaskOver else s.pc[t] == CallOver(Promised(outcome)) {
      assert !Ready(s, t) && !Ready(s, 0);
    }
  }
}
