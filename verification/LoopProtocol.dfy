/**
 The cross-thread protocol of `EventLoop` (EventLoop.cpp): producers push a task under the lock and
 then, as a separate step, write the eventfd; the loop waits, dispatches, takes the whole queue,
 runs it and looks at the quit flag.  Any number of threads, any interleaving of their steps.

 The program counter of the loop thread is `pc`; that of every other thread is whether it is in
 `atWakeup`, that is, between its push (or its store to the quit flag) and its eventfd write.
 */
module LoopProtocol {
  import Reactor

  type Thread = nat
  const LOOP: Thread := 0  // the loop's own thread, which may also push and quit, from callbacks
  type Task = Reactor.Functor

  datatype Event = WakeupEvent | OtherEvent

  datatype Pc =
    | Starting                       // before the store of false to the quit flag
    | AtCheck                        // at the loop condition
    | AtWait                         // in epoll_wait
    | Dispatching(events: seq<Event>)
    | Running(local: seq<Task>)      // draining the tasks taken from the queue
    | Exited

  datatype State = State(
    pc: Pc,
    quit: bool,
    counter: nat,                    // of the eventfd
    pending: seq<Task>,              // pendingFunctors_
    atWakeup: set<Thread>,
    // history
    queued: seq<Task>,               // every task pushed, in order
    stamps: seq<nat>,                // for each of them, how often the queue had been taken before
    executed: seq<Task>,             // every queued task run, in order
    ranIn: seq<nat>,                 // for each of them, the number of the drain that ran it
    drains: nat,                     // how often the queue has been taken
    quitSinceStart: bool)            // some thread stored true to the quit flag after the loop started

  const INIT: State := State(Starting, false, 0, [], {}, [], [], [], [], 0, false)

  datatype Step =
    | Start
    | Check
    | Wake(events: seq<Event>)
    | Dispatch
    | Take
    | Run
    | FinishDrain
    | Push(thread: Thread, task: Task)
    | StoreQuit(thread: Thread)
    | Write(thread: Thread)

  predicate IsLoopStep(step: Step) {
    !step.Push? && !step.StoreQuit? && !step.Write?
  }

  /** The loop's own thread pushes and quits only from a callback. */
  predicate MayCall(s: State, t: Thread) {
    t !in s.atWakeup && (t == LOOP ==> s.pc.Dispatching? || s.pc.Running?)
  }

  /** epoll_wait returns ready descriptors, one event each; none when a signal interrupts it. */
  predicate Ready(s: State, events: seq<Event>) {
    && |events| <= Reactor.MAX_EVENTS
    && (WakeupEvent in events ==> s.counter > 0)
    && (forall i, j :: 0 <= i < j < |events| ==> events[i] == OtherEvent || events[j] == OtherEvent)
  }

  predicate Enabled(s: State, step: Step) {
    (IsLoopStep(step) ==> LOOP !in s.atWakeup) &&
    match step
    case Start => s.pc == Starting
    case Check => s.pc == AtCheck
    case Wake(events) => s.pc == AtWait && Ready(s, events)
    case Dispatch => s.pc.Dispatching? && s.pc.events != []
    case Take => s.pc == Dispatching([])
    case Run => s.pc.Running? && s.pc.local != []
    case FinishDrain => s.pc == Running([])
    case Push(t, _) => MayCall(s, t)
    case StoreQuit(t) => MayCall(s, t)
    case Write(t) => t in s.atWakeup
  }

  function Apply(s: State, step: Step): State
    requires Enabled(s, step)
  {
    match step
    case Start => s.(pc := AtCheck, quit := false, quitSinceStart := false)
    case Check => s.(pc := if s.quit then Exited else AtWait)
    case Wake(events) => s.(pc := Dispatching(events))
    case Dispatch =>
      s.(pc := Dispatching(s.pc.events[1..]),
         counter := if s.pc.events[0] == WakeupEvent then Reactor.AfterRead(s.counter) else s.counter)
    case Take => s.(pc := Running(s.pending), pending := [], drains := s.drains + 1)
    case Run =>
      s.(pc := Running(s.pc.local[1..]),
         executed := s.executed + [s.pc.local[0]], ranIn := s.ranIn + [s.drains])
    case FinishDrain => s.(pc := AtCheck)
    case Push(t, task) =>
      s.(pending := s.pending + [task], atWakeup := s.atWakeup + {t},
         queued := s.queued + [task], stamps := s.stamps + [s.drains])
    case StoreQuit(t) =>
      s.(quit := true, atWakeup := s.atWakeup + {t}, quitSinceStart := s.pc != Starting)
    case Write(t) =>
      s.(counter := Reactor.AfterWrite(s.counter), atWakeup := s.atWakeup - {t})
  }

  // ---------------------------------------------------------------- runs

  predicate IsRun(s: State, steps: seq<Step>)
    decreases |steps|
  {
    steps == [] || (Enabled(s, steps[0]) && IsRun(Apply(s, steps[0]), steps[1..]))
  }

  function After(s: State, steps: seq<Step>): State
    requires IsRun(s, steps)
    decreases |steps|
  {
    if steps == [] then s else After(Apply(s, steps[0]), steps[1..])
  }

  function LoopSteps(steps: seq<Step>): nat {
    if steps == [] then 0 else (if IsLoopStep(steps[0]) then 1 else 0) + LoopSteps(steps[1..])
  }

  function Waits(steps: seq<Step>): nat {
    if steps == [] then 0 else (if steps[0].Wake? then 1 else 0) + Waits(steps[1..])
  }

  // ---------------------------------------------------------------- invariant

  function Local(s: State): seq<Task> {
    if s.pc.Running? then s.pc.local else []
  }

  /** Someone will still make the eventfd readable, or it is readable already. */
  ghost predicate WakeupDue(s: State) {
    s.counter > 0 || s.atWakeup != {}
  }

  ghost predicate ExactlyOnceInOrder(s: State) {
    s.queued == s.executed + Local(s) + s.pending
  }

  ghost predicate NoLostWakeup(s: State) {
    s.pending != [] && !s.pc.Dispatching? ==> WakeupDue(s)
  }

  ghost predicate NoLostQuit(s: State) {
    && (s.pc != Starting ==> (s.quit <==> s.quitSinceStart))
    && (s.quit && s.pc == AtWait ==> WakeupDue(s))
    && (s.pc == Exited ==> s.quit)
  }

  /** Tasks pushed after `d` drains run in drain `d + 1`. */
  ghost predicate RunInNextDrain(s: State) {
    && |s.stamps| == |s.queued| == |s.executed| + |Local(s)| + |s.pending|
    && |s.ranIn| == |s.executed|
    && (forall i :: 0 <= i < |s.executed| ==> s.ranIn[i] == s.stamps[i] + 1)
    && (forall i :: |s.executed| <= i < |s.executed| + |Local(s)| ==> s.stamps[i] + 1 == s.drains)
    && (forall i :: |s.executed| + |Local(s)| <= i < |s.queued| ==> s.stamps[i] == s.drains)
  }

  ghost predicate LoopThreadFree(s: State) {
    !s.pc.Dispatching? && !s.pc.Running? ==> LOOP !in s.atWakeup
  }

  ghost predicate Inv(s: State) {
    && ExactlyOnceInOrder(s)
    && NoLostWakeup(s)
    && NoLostQuit(s)
    && RunInNextDrain(s)
    && LoopThreadFree(s)
    && s.counter <= Reactor.EVENTFD_MAX
    && (s.pc.Dispatching? ==> |s.pc.events| <= Reactor.MAX_EVENTS)
  }

  lemma {:induction false} MoveFirst(done: seq<Task>, local: seq<Task>, rest: seq<Task>)
    requires local != []
    ensures done + local + rest == (done + [local[0]]) + local[1..] + rest
  {
  }

  lemma {:induction false} TakeAll(done: seq<Task>, rest: seq<Task>)
    ensures done + [] + rest == done + rest + []
  {
  }

  lemma {:induction false} AddLast(done: seq<Task>, local: seq<Task>, rest: seq<Task>, task: Task)
    ensures done + local + rest + [task] == done + local + (rest + [task])
  {
  }

  lemma {:induction false} QueueKept(s: State, step: Step)
    requires Inv(s) && Enabled(s, step)
    ensures ExactlyOnceInOrder(Apply(s, step))
  {
    match step
    case Run => MoveFirst(s.executed, s.pc.local, s.pending);
    case Take => TakeAll(s.executed, s.pending);
    case Push(_, task) => AddLast(s.executed, Local(s), s.pending, task);
    case _ => assert Local(Apply(s, step)) == Local(s);
  }

  lemma {:induction false} DrainsKept(s: State, step: Step)
    requires Inv(s) && Enabled(s, step)
    ensures RunInNextDrain(Apply(s, step))
  {
    QueueKept(s, step);
    assert |s.queued| == |s.executed| + |Local(s)| + |s.pending|;
  }

  lemma {:induction false} InvKept(s: State, step: Step)
    requires Inv(s) && Enabled(s, step)
    ensures Inv(Apply(s, step))
  {
    QueueKept(s, step);
    DrainsKept(s, step);
    if step.Push? || step.StoreQuit? {
      assert step.thread in Apply(s, step).atWakeup;
    }
  }

  lemma {:induction false} InvOverRun(s: State, steps: seq<Step>)
    requires Inv(s) && IsRun(s, steps)
    ensures Inv(After(s, steps))
    decreases |steps|
  {
    if steps != [] {
      InvKept(s, steps[0]);
      InvOverRun(Apply(s, steps[0]), steps[1..]);
    }
  }

  // ---------------------------------------------------------------- main results

  /**
   Safety over whole runs.  Wherever any interleaving leads: queued tasks have been executed exactly
   once and in order, or are still there in order; a loop that waits with tasks pending or a quit
   requested has a readable eventfd, or another thread is about to write it; each executed task ran
   in the first drain after its push; the quit flag says whether quit was called since the start; and
   the loop leaves only when it was.
   */
  lemma {:induction false} ReachableStatesAreSafe(steps: seq<Step>)
    requires IsRun(INIT, steps)
    ensures var s := After(INIT, steps);
            && s.executed <= s.queued
            && ExactlyOnceInOrder(s) && RunInNextDrain(s)
            && (s.pc != Starting ==> (s.quit <==> s.quitSinceStart))
            && (s.pc == Exited ==> s.quitSinceStart)
            && (s.pc == AtWait && (s.pending != [] || s.quit) ==>
                  s.counter > 0 || exists t :: t != LOOP && t in s.atWakeup)
  {
    InvOverRun(INIT, steps);
    var s := After(INIT, steps);
    if s.pc == AtWait && s.atWakeup != {} {
      var t :| t in s.atWakeup;
      assert t != LOOP;
    }
  }

  /**
   How many steps of its own the loop still needs before task number `i` has run: the tasks before
   it, and the way to the next drain if it has not been taken yet.
   */
  function StepsLeft(s: State, i: nat): int
  {
    i - |s.executed| + 1 +
    (if i < |s.executed| + |Local(s)| then 0 else
       match s.pc
       case Dispatching(events) => |events| + 1
       case AtWait => Reactor.MAX_EVENTS + 2
       case AtCheck => Reactor.MAX_EVENTS + 3
       case Starting => Reactor.MAX_EVENTS + 4
       case Running(_) => Reactor.MAX_EVENTS + 4
       case Exited => 0)
  }

  lemma {:induction false} StepsLeftDecreases(s: State, step: Step, i: nat)
    requires Inv(s) && Enabled(s, step)
    requires |s.executed| <= i < |s.queued|
    requires Apply(s, step).pc != Exited
    ensures StepsLeft(s, i) > 0
    ensures i < |Apply(s, step).executed|
         || StepsLeft(Apply(s, step), i) <= StepsLeft(s, i) - (if IsLoopStep(step) then 1 else 0)
  {
    assert |s.queued| == |s.executed| + |Local(s)| + |s.pending|;
  }

  /**
   Bounded execution.  Whatever the other threads do, a pushed task has run once the loop has made
   `StepsLeft` steps of its own, unless it observed a quit and left.
   */
  lemma {:induction false} TaskRunsInTime(s: State, steps: seq<Step>, i: nat)
    requires Inv(s) && IsRun(s, steps)
    requires |s.executed| <= i < |s.queued|
    requires LoopSteps(steps) >= StepsLeft(s, i)
    requires After(s, steps).pc != Exited
    ensures i < |After(s, steps).executed|
    decreases |steps|
  {
    if s.pc == Exited {
      ExitedIsFinal(s, steps);
      assert false;
    } else if steps != [] {
      var next := Apply(s, steps[0]);
      InvKept(s, steps[0]);
      if next.pc == Exited {
        ExitedIsFinal(next, steps[1..]);
        assert false;
      } else {
        StepsLeftDecreases(s, steps[0], i);
        if i < |next.executed| {
          ExecutedGrows(next, steps[1..]);
        } else {
          TaskRunsInTime(next, steps[1..], i);
        }
      }
    }
  }

  lemma {:induction false} ExitedIsFinal(s: State, steps: seq<Step>)
    requires s.pc == Exited && IsRun(s, steps)
    ensures After(s, steps).pc == Exited
    decreases |steps|
  {
    if steps != [] {
      ExitedIsFinal(Apply(s, steps[0]), steps[1..]);
    }
  }

  lemma {:induction false} ExecutedGrows(s: State, steps: seq<Step>)
    requires IsRun(s, steps)
    ensures |s.executed| <= |After(s, steps).executed|
    decreases |steps|
  {
    if steps != [] {
      ExecutedGrows(Apply(s, steps[0]), steps[1..]);
    }
  }

  /** The next step towards running what is queued. */
  function ProgressStep(s: State): Step
    requires LOOP in s.atWakeup || s.pc != Exited
  {
    if LOOP in s.atWakeup then Write(LOOP)
    else match s.pc
      case Starting => Start
      case AtCheck => Check
      case AtWait => Wake([WakeupEvent])
      case Dispatching(events) => if events == [] then Take else Dispatch
      case Running(local) => if local == [] then FinishDrain else Run
  }

  /**
   No deadlock.  While a task waits to run and the loop has not left, the loop can make a step
   without any descriptor but the eventfd becoming ready, or a thread can make the eventfd write it
   owes, after which the loop can.
   */
  lemma {:induction false} NeverStuck(s: State)
    requires Inv(s) && s.pc != Exited
    requires s.executed != s.queued || s.quit
    ensures Enabled(s, ProgressStep(s)) || exists t :: t != LOOP && Enabled(s, Write(t))
    ensures forall t :: Enabled(s, Write(t)) && t != LOOP && s.pc == AtWait
              ==> Enabled(Apply(s, Write(t)), Wake([WakeupEvent]))
  {
    if s.pc == AtWait {
      assert s.executed + Local(s) + s.pending == s.executed + s.pending;
      if s.pending == [] {
        assert s.executed + s.pending == s.executed;
      }
      assert WakeupDue(s);
      if s.counter == 0 {
        var t :| t in s.atWakeup;
        assert t != LOOP && Enabled(s, Write(t));
      }
    }
  }

  /**
   Quit is never lost.  Once quit has been called on a started loop, the loop enters no further
   turn: it returns from the wait it is in, if it is in one, and never waits again.
   */
  lemma {:induction false} QuitEndsTheTurn(s: State, steps: seq<Step>)
    requires Inv(s) && IsRun(s, steps)
    requires s.pc != Starting && s.quitSinceStart
    ensures Waits(steps) <= if s.pc == AtWait then 1 else 0
    ensures s.pc != AtWait ==> After(s, steps).pc != AtWait
    decreases |steps|
  {
    if steps != [] {
      InvKept(s, steps[0]);
      QuitEndsTheTurn(Apply(s, steps[0]), steps[1..]);
    }
  }

  function Pushes(steps: seq<Step>): nat {
    if steps == [] then 0 else (if steps[0].Push? then 1 else 0) + Pushes(steps[1..])
  }

  /** How many steps of its own a started loop still makes after a quit, if nothing more is pushed. */
  function StepsToExit(s: State): nat {
    match s.pc
    case Exited => 0
    case AtCheck => 1
    case Running(local) => |local| + 2
    case Dispatching(events) => |events| + |s.pending| + 3
    case AtWait => Reactor.MAX_EVENTS + |s.pending| + 4
    case Starting => Reactor.MAX_EVENTS + |s.pending| + 6
  }

  lemma {:induction false} StepsToExitDecreases(s: State, step: Step)
    requires Inv(s) && Enabled(s, step)
    requires s.pc != Starting && s.quitSinceStart
    ensures Apply(s, step).pc != Starting && Apply(s, step).quitSinceStart
    ensures StepsToExit(Apply(s, step)) <=
            StepsToExit(s) - (if IsLoopStep(step) then 1 else 0) + (if step.Push? then 1 else 0)
  {
  }

  /**
   Quit takes effect in time.  Whatever the other threads do after a quit on a started loop, the loop
   has left once it has made `StepsToExit` steps of its own and one for each task pushed meanwhile.
   */
  lemma {:induction false} QuitExitsInTime(s: State, steps: seq<Step>)
    requires Inv(s) && IsRun(s, steps)
    requires s.pc != Starting && s.quitSinceStart
    requires LoopSteps(steps) >= StepsToExit(s) + Pushes(steps)
    ensures After(s, steps).pc == Exited
    decreases |steps|
  {
    if steps != [] {
      InvKept(s, steps[0]);
      StepsToExitDecreases(s, steps[0]);
      if s.pc == Exited {
        ExitedIsFinal(s, steps);
      } else {
        QuitExitsInTime(Apply(s, steps[0]), steps[1..]);
      }
    }
  }

  /** These steps can be taken from `s` and lead to `t`. */
  ghost predicate Leads(s: State, steps: seq<Step>, t: State) {
    IsRun(s, steps) && After(s, steps) == t
  }

  lemma {:induction false} LeadsOn(s: State, step: Step, mid: State, steps: seq<Step>, t: State)
    requires Enabled(s, step) && Apply(s, step) == mid && Leads(mid, steps, t)
    ensures Leads(s, [step] + steps, t)
  {
    assert ([step] + steps)[1..] == steps;
  }

  /** Thread 1 quits, and the loop starts only then. */
  const LATE_START: State := INIT.(pc := AtCheck, counter := 1)

  /** The loop has consumed the wakeup, has drained nothing, and waits again: for ever. */
  const STRANDED: State := INIT.(pc := AtWait, drains := 1)

  const ONE_TURN: seq<Step> := [Check, Wake([WakeupEvent]), Dispatch, Take, FinishDrain, Check]

  lemma {:induction false} QuitThenStart()
    ensures Leads(INIT, [StoreQuit(1), Write(1), Start], LATE_START)
  {
    var s1 := INIT.(quit := true, atWakeup := {1});
    var s2 := INIT.(quit := true, counter := 1);
    LeadsOn(s2, Start, LATE_START, [], LATE_START);
    assert {1} - {1} == {};
    LeadsOn(s1, Write(1), s2, [Start], LATE_START);
    assert {} + {1} == {1};
    LeadsOn(INIT, StoreQuit(1), s1, [Write(1), Start], LATE_START);
  }

  lemma {:induction false} OneTurnStrands()
    ensures Leads(LATE_START, ONE_TURN, STRANDED)
  {
    var s1 := LATE_START.(pc := AtWait);
    var s2 := LATE_START.(pc := Dispatching([WakeupEvent]));
    EmptyTurn();
    assert [WakeupEvent][1..] == [];
    LeadsOn(s2, Dispatch, INIT.(pc := Dispatching([])), REST_OF_TURN, STRANDED);
    LeadsOn(s1, Wake([WakeupEvent]), s2, [Dispatch] + REST_OF_TURN, STRANDED);
    LeadsOn(LATE_START, Check, s1, [Wake([WakeupEvent])] + ([Dispatch] + REST_OF_TURN), STRANDED);
    assert ONE_TURN == [Check] + ([Wake([WakeupEvent])] + ([Dispatch] + REST_OF_TURN));
  }

  const REST_OF_TURN: seq<Step> := [Take, FinishDrain, Check]

  lemma {:induction false} EmptyTurn()
    ensures Leads(INIT.(pc := Dispatching([])), REST_OF_TURN, STRANDED)
  {
    var s4 := STRANDED.(pc := Running([]));
    var s5 := STRANDED.(pc := AtCheck);
    LeadsOn(s5, Check, STRANDED, [], STRANDED);
    LeadsOn(s4, FinishDrain, s5, [Check], STRANDED);
    LeadsOn(INIT.(pc := Dispatching([])), Take, s4, [FinishDrain] + [Check], STRANDED);
    assert REST_OF_TURN == [Take] + ([FinishDrain] + [Check]);
  }

  /**
   A quit issued before the loop starts is lost: the initial store undoes it, and after one turn the
   loop waits with nothing to wake it.  Hence `quitSinceStart` in the results above.
   */
  lemma {:induction false} QuitBeforeStartIsLost()
    ensures Leads(INIT, [StoreQuit(1), Write(1), Start], LATE_START)
    ensures Leads(LATE_START, ONE_TURN, STRANDED)
    ensures STRANDED.pc == AtWait && !STRANDED.quit && STRANDED.counter == 0
    ensures STRANDED.atWakeup == {} && STRANDED.pending == []
  {
    QuitThenStart();
    OneTurnStrands();
  }
}
