/**
 When a descriptor may come back from accept.  Its previous connection is closed before the erase
 functor is queued, and the table entry is erased by descriptor when that functor runs; so a new
 connection on the same descriptor is safe only when its creation comes behind that functor in one
 queue.  The condition, that it is exact, and runs in which it fails.
 */
module DescriptorReuse {
  import opened Lifetime
  import ThreadPool

  /** An entry that the descriptor still has will be erased first, by the loop that is to create anew. */
  predicate ReusedInOrder(s: State, fd: int)
    requires |s.loops| > 0
  {
    ErasedOn(s, fd, Target(s))
  }

  predicate ErasedOn(s: State, fd: int, l: Loop)
    requires l < |s.loops|
  {
    fd in s.registry ==> l != MAIN && Erase(fd) in Tasks(s.loops[l])
  }

  predicate HandsOffInOrder(s: State, step: Step)
    requires Enabled(s, step)
  {
    step.HandOff? ==> ReusedInOrder(s, s.loops[MAIN].pc.fd)
  }

  /** The hypothesis on a run: every descriptor is handed off in order. */
  predicate HandOffsInOrder(s: State, steps: seq<Step>)
    requires IsRun(s, steps)
    decreases |steps|
  {
    steps == [] || (HandsOffInOrder(s, steps[0]) && HandOffsInOrder(Apply(s, steps[0]), steps[1..]))
  }

  /** A descriptor without live connection has an entry exactly while its erase functor is due. */
  lemma {:induction false} EntryMeansEraseDue(s: State, fd: int)
    requires Inv(s) && NotLive(s, fd)
    ensures fd in s.registry <==> exists l :: 0 <= l < |s.loops| && EraseDue(s.loops[l], fd)
  {
    if fd in s.registry {
      var id := s.registry[fd];
      assert PlaceOk(s, id);
      assert EraseDue(s.loops[s.conns[id].loop], fd);
    }
    forall l | 0 <= l < |s.loops| && EraseDue(s.loops[l], fd) ensures fd in s.registry {
      assert LoopOk(s, l);
    }
  }

  // ---------------------------------------------------------------- order in the queues

  /** A task that waits in a queue behind another. */
  ghost predicate Before(tasks: seq<Task>, first: Task, second: Task) {
    exists i, j :: 0 <= i < j < |tasks| && tasks[i] == first && tasks[j] == second
  }

  /** An old entry under a descriptor that waits for creation is erased first, by the same loop. */
  ghost predicate ErasedFirst(s: State, id: Id)
    requires id < |s.conns| && s.conns[id].loop < |s.loops|
  {
    var c := s.conns[id];
    && (c.status == Queued && c.fd in s.registry ==> Before(Tasks(s.loops[c.loop]), Erase(c.fd), Create(c.fd, id)))
    && (c.status == Creating ==> c.fd !in s.registry)
  }

  ghost predicate OrderOk(s: State) {
    forall id :: 0 <= id < |s.conns| ==> s.conns[id].loop < |s.loops| && ErasedFirst(s, id)
  }

  lemma {:induction false} BeforeInMore(tasks: seq<Task>, first: Task, second: Task, t: Task)
    requires Before(tasks, first, second)
    ensures Before(tasks + [t], first, second)
  {
    var i, j :| 0 <= i < j < |tasks| && tasks[i] == first && tasks[j] == second;
    assert (tasks + [t])[i] == first && (tasks + [t])[j] == second;
  }

  /** A task more at the end comes before none of those that are there. */
  lemma {:induction false} NotBeforeInMore(tasks: seq<Task>, first: Task, second: Task, t: Task)
    requires !Before(tasks, first, second) && t != second
    ensures !Before(tasks + [t], first, second)
  {
    var more := tasks + [t];
    forall i, j | 0 <= i < j < |more| ensures !(more[i] == first && more[j] == second) {
      if j < |tasks| {
        assert more[i] == tasks[i] && more[j] == tasks[j];
      }
    }
  }

  lemma {:induction false} LastIsBehind(tasks: seq<Task>, first: Task, last: Task)
    requires first in tasks
    ensures Before(tasks + [last], first, last)
  {
    var i :| 0 <= i < |tasks| && tasks[i] == first;
    assert (tasks + [last])[i] == first && (tasks + [last])[|tasks|] == last;
  }

  lemma {:induction false} LastIsFirst(tasks: seq<Task>, first: Task, last: Task)
    requires first !in tasks && last !in tasks
    ensures !Before(tasks + [last], first, last)
  {
    var more := tasks + [last];
    forall i, j | 0 <= i < j < |more| ensures !(more[i] == first && more[j] == last) {
      assert more[i] == tasks[i];
    }
  }

  /** Taking off the front task leaves the order of the others. */
  lemma {:induction false} BeforeInRest(t: Task, rest: seq<Task>, first: Task, second: Task)
    requires Before([t] + rest, first, second) && t != first
    ensures Before(rest, first, second)
  {
    var tasks := [t] + rest;
    var i, j :| 0 <= i < j < |tasks| && tasks[i] == first && tasks[j] == second;
    assert rest[i - 1] == first && rest[j - 1] == second;
  }

  lemma {:induction false} NotBeforeInRest(t: Task, rest: seq<Task>, first: Task, second: Task)
    requires !Before([t] + rest, first, second)
    ensures !Before(rest, first, second)
    ensures second in rest ==> t != first
  {
    var tasks := [t] + rest;
    forall i, j | 0 <= i < j < |rest| ensures !(rest[i] == first && rest[j] == second) {
      assert tasks[i + 1] == rest[i] && tasks[j + 1] == rest[j];
    }
    if second in rest {
      var j :| 0 <= j < |rest| && rest[j] == second;
      assert tasks[0] == t && tasks[j + 1] == second;
    }
  }

  /** The front task is behind nothing. */
  lemma {:induction false} FrontIsFirst(t: Task, rest: seq<Task>, first: Task)
    requires t !in rest
    ensures !Before([t] + rest, first, t)
  {
    var tasks := [t] + rest;
    forall j | 0 < j < |tasks| ensures tasks[j] != t {
      assert tasks[j] == rest[j - 1];
    }
  }

  // ---------------------------------------------------------------- each step keeps the order

  lemma {:induction false} HandOffKeepsOrder(s: State, id: Id)
    requires Inv(s) && OrderOk(s) && Enabled(s, HandOff) && HandsOffInOrder(s, HandOff) && id < |s.conns| + 1
    ensures SlotFree(s, HandOff)
    ensures Apply(s, HandOff).conns[id].loop < |s.loops| && ErasedFirst(Apply(s, HandOff), id)
  {
    var s' := Apply(s, HandOff);
    var fd, l := s.loops[MAIN].pc.fd, Target(s);
    var create := Create(fd, |s.conns|);
    assert LoopOk(s, MAIN);
    assert l != MAIN ==> Tasks(s'.loops[l]) == Tasks(s.loops[l]) + [create];
    assert forall m :: 0 <= m < |s.loops| && (m != l || l == MAIN) ==> Tasks(s'.loops[m]) == Tasks(s.loops[m]);
    if id < |s.conns| {
      assert PlaceOk(s, id) && ErasedFirst(s, id);
      var c := s.conns[id];
      if c.status == Queued && c.fd in s.registry && l != MAIN && c.loop == l {
        BeforeInMore(Tasks(s.loops[l]), Erase(c.fd), Create(c.fd, id), create);
      }
    } else if fd in s.registry {
      LastIsBehind(Tasks(s.loops[l]), Erase(fd), create);
    }
  }

  lemma {:induction false} QueueEraseKeepsOrder(s: State, l: Loop, id: Id)
    requires Inv(s) && OrderOk(s) && Enabled(s, QueueErase(l)) && id < |s.conns|
    ensures ErasedFirst(Apply(s, QueueErase(l)), id)
  {
    var s' := Apply(s, QueueErase(l));
    var erase := Erase(s.loops[l].pc.fd);
    assert Tasks(s'.loops[l]) == Tasks(s.loops[l]) + [erase];
    assert ErasedFirst(s, id);
    var c := s.conns[id];
    if c.status == Queued && c.fd in s.registry && c.loop == l {
      BeforeInMore(Tasks(s.loops[l]), Erase(c.fd), Create(c.fd, id), erase);
    }
  }

  lemma {:induction false} RunTaskKeepsOrder(s: State, l: Loop, id: Id)
    requires Inv(s) && OrderOk(s) && Enabled(s, RunTask(l)) && id < |s.conns|
    ensures ErasedFirst(Apply(s, RunTask(l)), id)
  {
    var s' := Apply(s, RunTask(l));
    TaskRemoved(s, l);
    assert ErasedFirst(s, id) && PlaceOk(s, id);
    var t := s.loops[l].pc.local[0];
    var c := s.conns[id];
    if t == Create(c.fd, id) {
      FrontIsFirst(t, Tasks(s'.loops[l]), Erase(c.fd));
    } else if c.status == Queued && c.fd in s'.registry && c.loop == l {
      BeforeInRest(t, Tasks(s'.loops[l]), Erase(c.fd), Create(c.fd, id));
    }
  }

  lemma {:induction false} InsertKeepsOrder(s: State, l: Loop, id: Id)
    requires Inv(s) && OrderOk(s) && Enabled(s, Insert(l)) && id < |s.conns|
    ensures SlotFree(s, Insert(l)) && ErasedFirst(Apply(s, Insert(l)), id)
  {
    var s' := Apply(s, Insert(l));
    var created := s.loops[l].pc.id;
    assert LoopOk(s, l);
    assert Tasks(s'.loops[l]) == Tasks(s.loops[l]);
    assert ErasedFirst(s, id) && ErasedFirst(s, created) && PlaceOk(s, id);
    if id != created && (s.conns[id].status == Queued || s.conns[id].status == Creating) {
      LiveFdsDiffer(s, id, created);
    }
  }

  lemma {:induction false} QuietStepKeepsOrder(s: State, step: Step, id: Id)
    requires Inv(s) && OrderOk(s) && Enabled(s, step) && IsQuiet(step) && id < |s.conns|
    ensures id < |Apply(s, step).conns| == |s.conns| && |Apply(s, step).loops| == |s.loops|
    ensures Apply(s, step).conns[id].loop < |s.loops| && ErasedFirst(Apply(s, step), id)
  {
    QuietStepKeepsQueues(s, step);
    assert ErasedFirst(s, id);
  }

  lemma {:induction false} OrderKept(s: State, step: Step)
    requires Inv(s) && OrderOk(s) && Enabled(s, step) && HandsOffInOrder(s, step)
    ensures SlotFree(s, step) && OrderOk(Apply(s, step))
  {
    var s' := Apply(s, step);
    if step.HandOff? { HandOffKeepsOrder(s, |s.conns|); }
    if step.Insert? { InsertKeepsOrder(s, step.loop, s.loops[step.loop].pc.id); }
    forall id | 0 <= id < |s'.conns| ensures s'.conns[id].loop < |s'.loops| && ErasedFirst(s', id) {
      match step
      case HandOff => HandOffKeepsOrder(s, id);
      case QueueErase(l) => QueueEraseKeepsOrder(s, l, id);
      case RunTask(l) => RunTaskKeepsOrder(s, l, id);
      case Insert(l) => InsertKeepsOrder(s, l, id);
      case _ => QuietStepKeepsOrder(s, step, id);
    }
  }

  lemma {:induction false} HandOffsFreeSlots(s: State, steps: seq<Step>)
    requires Inv(s) && OrderOk(s) && IsRun(s, steps) && HandOffsInOrder(s, steps)
    ensures SlotsFree(s, steps)
    decreases |steps|
  {
    if steps != [] {
      OrderKept(s, steps[0]);
      StepKeeps(s, steps[0]);
      HandOffsFreeSlots(Apply(s, steps[0]), steps[1..]);
    }
  }

  /** If every descriptor is handed off in order, all of the lifetime results hold, over any run. */
  lemma {:induction false} HandOffsInOrderAreSafe(subLoops: nat, steps: seq<Step>)
    requires IsRun(Start(subLoops), steps) && HandOffsInOrder(Start(subLoops), steps)
    ensures Safe(After(Start(subLoops), steps)) && OwnErases(Start(subLoops), steps)
  {
    StartOk(subLoops);
    HandOffsFreeSlots(Start(subLoops), steps);
    LifetimesAreSafe(Start(subLoops), steps);
  }

  // ---------------------------------------------------------------- one sub-loop

  /** The descriptor in hand is not one that a loop has closed without having queued its erase functor. */
  predicate NotBeingRemoved(s: State, step: Step)
    requires Enabled(s, step)
  {
    step.HandOff? ==>
      forall l :: 0 <= l < |s.loops| && s.loops[l].pc.Removing? ==> s.loops[l].pc.fd != s.loops[MAIN].pc.fd
  }

  predicate NoneBeingRemoved(s: State, steps: seq<Step>)
    requires IsRun(s, steps)
    decreases |steps|
  {
    steps == [] || (NotBeingRemoved(s, steps[0]) && NoneBeingRemoved(Apply(s, steps[0]), steps[1..]))
  }

  /** With one sub-loop, that is all there is to the order. */
  lemma {:induction false} OneSubLoopOrder(s: State, step: Step)
    requires Inv(s) && RoundRobin(s) && |s.loops| == 2 && Enabled(s, step)
    ensures HandsOffInOrder(s, step) <==> NotBeingRemoved(s, step)
  {
    if step.HandOff? {
      var fd := s.loops[MAIN].pc.fd;
      assert LoopOk(s, MAIN) && LoopOk(s, 1);
      if fd in s.registry {
        assert PlaceOk(s, s.registry[fd]);
        assert EraseDue(s.loops[1], fd);
      }
    }
  }

  lemma {:induction false} OneSubLoopInOrder(s: State, steps: seq<Step>)
    requires Inv(s) && OrderOk(s) && RoundRobin(s) && |s.loops| == 2
    requires IsRun(s, steps) && NoneBeingRemoved(s, steps)
    ensures HandOffsInOrder(s, steps)
    decreases |steps|
  {
    if steps != [] {
      OneSubLoopOrder(s, steps[0]);
      OrderKept(s, steps[0]);
      StepKeeps(s, steps[0]);
      RoundRobinKept(s, steps[0]);
      OneSubLoopInOrder(Apply(s, steps[0]), steps[1..]);
    }
  }

  /**
   With a single sub-loop, whose queue erases before it creates, accept may return any descriptor at
   any time, except between its close and the queueing of its erase functor.
   */
  lemma {:induction false} OneSubLoopIsSafe(steps: seq<Step>)
    requires IsRun(Start(1), steps) && NoneBeingRemoved(Start(1), steps)
    ensures Safe(After(Start(1), steps)) && OwnErases(Start(1), steps)
  {
    StartOk(1);
    OneSubLoopInOrder(Start(1), steps);
    HandOffsInOrderAreSafe(1, steps);
  }

  // ---------------------------------------------------------------- the hypothesis is exact

  /** What loop `l` does next when no event asks for a close. */
  function NextOf(s: State, l: Loop): Step
    requires l < |s.loops|
  {
    match s.loops[l].pc
    case Waiting => WaitReturn(l, [])
    case Dispatching(batch) => if batch == [] then TakeQueue(l) else Handle(l, false)
    case HandingOff(_, _) => HandOff
    case Removing(_, _) => QueueErase(l)
    case Draining(local) => if local == [] then DrainDone(l) else RunTask(l)
    case Inserting(_, _) => Insert(l)
  }

  /** How far loop `l` is from a task of its own: what it has to do before, and the next turn if needed. */
  function Distance(ls: LoopState, t: Task): nat {
    if t in Local(ls.pc) then
      3 * |Local(ls.pc)| + (if ls.pc.Inserting? then 1 else 0)
    else
      3 * |ls.pending| + 10 +
      (match ls.pc
       case Waiting => 1
       case Dispatching(batch) => |batch|
       case HandingOff(_, batch) => |batch| + 1
       case Removing(_, batch) => |batch| + 4
       case Draining(local) => 2 + 3 * |local|
       case Inserting(_, local) => 3 + 3 * |local|)
  }

  /** Loop `l` is to create a connection under a descriptor whose entry it will not have erased by then. */
  ghost predicate Clash(s: State, l: Loop, id: Id) {
    && 0 < l < |s.loops| && id < |s.conns| && s.conns[id].loop == l && s.conns[id].fd in s.registry
    && (s.conns[id].status == Queued || s.conns[id].status == Creating)
    && (s.conns[id].status == Queued ==>
          !Before(Tasks(s.loops[l]), Erase(s.conns[id].fd), Create(s.conns[id].fd, id)))
  }

  lemma {:induction false} ClashFindsSlotTaken(s: State, l: Loop, id: Id)
    requires Inv(s) && Clash(s, l, id) && s.conns[id].status == Creating
    ensures NextOf(s, l) == Insert(l) && Enabled(s, Insert(l)) && !SlotFree(s, Insert(l))
  {
    assert PlaceOk(s, id);
  }

  lemma {:induction false} NextIsEnabled(s: State, l: Loop)
    requires Inv(s) && 0 < l < |s.loops|
    ensures Enabled(s, NextOf(s, l)) && !NextOf(s, l).Accept? && !NextOf(s, l).HandOff?
    ensures |Apply(s, NextOf(s, l)).loops| == |s.loops| && |Apply(s, NextOf(s, l)).conns| == |s.conns|
  {
    assert LoopOk(s, l);
  }

  /** Other steps of the loop than a functor: its queue changes at the end at most. */
  lemma {:induction false} ClashOverQuietStep(s: State, l: Loop, id: Id)
    requires Inv(s) && Clash(s, l, id) && s.conns[id].status == Queued
    requires Enabled(s, NextOf(s, l)) && SlotFree(s, NextOf(s, l)) && !NextOf(s, l).RunTask?
    requires |Apply(s, NextOf(s, l)).loops| == |s.loops| && |Apply(s, NextOf(s, l)).conns| == |s.conns|
    ensures var s' := Apply(s, NextOf(s, l));
            && Clash(s', l, id) && s'.conns[id] == s.conns[id]
            && Distance(s'.loops[l], Create(s.conns[id].fd, id)) < Distance(s.loops[l], Create(s.conns[id].fd, id))
  {
    var s' := Apply(s, NextOf(s, l));
    var c := s.conns[id];
    assert LoopOk(s, l) && PlaceOk(s, id);
    var tasks := Tasks(s.loops[l]);
    if s.loops[l].pc.Removing? {
      var erase := Erase(s.loops[l].pc.fd);
      assert Tasks(s'.loops[l]) == tasks + [erase];
      NotBeforeInMore(tasks, Erase(c.fd), Create(c.fd, id), erase);
    } else {
      assert Tasks(s'.loops[l]) == tasks;
    }
  }

  lemma {:induction false} ClashOverTask(s: State, l: Loop, id: Id)
    requires Inv(s) && Clash(s, l, id) && s.conns[id].status == Queued && Enabled(s, RunTask(l))
    ensures var s' := Apply(s, RunTask(l));
            && Clash(s', l, id) && s'.conns[id].fd == s.conns[id].fd
            && (s'.conns[id].status == Queued ==>
                  Distance(s'.loops[l], Create(s.conns[id].fd, id)) < Distance(s.loops[l], Create(s.conns[id].fd, id)))
  {
    var s' := Apply(s, RunTask(l));
    var c := s.conns[id];
    TaskRemoved(s, l);
    assert PlaceOk(s, id) && LoopOk(s, l);
    var local := s.loops[l].pc.local;
    NotBeforeInRest(local[0], Tasks(s'.loops[l]), Erase(c.fd), Create(c.fd, id));
    if local[0] != Create(c.fd, id) {
      NearerByATask(s.loops[l], s'.loops[l], Create(c.fd, id));
    }
  }

  lemma {:induction false} NearerByATask(ls: LoopState, ls': LoopState, t: Task)
    requires ls.pc.Draining? && ls.pc.local != [] && ls.pc.local[0] != t && ls'.pending == ls.pending
    requires ls'.pc == Draining(ls.pc.local[1..]) || (ls'.pc.Inserting? && ls'.pc.local == ls.pc.local[1..])
    ensures Distance(ls', t) < Distance(ls, t)
  {
    assert ls.pc.local == [ls.pc.local[0]] + ls.pc.local[1..];
  }

  /** While loop `l` goes on alone, the clash stays and comes nearer. */
  lemma {:induction false} ClashStays(s: State, l: Loop, id: Id)
    requires Inv(s) && Clash(s, l, id) && s.conns[id].status == Queued
    requires Enabled(s, NextOf(s, l)) && SlotFree(s, NextOf(s, l))
    ensures var s' := Apply(s, NextOf(s, l));
            && Clash(s', l, id) && s'.conns[id].fd == s.conns[id].fd
            && (s'.conns[id].status == Queued ==>
                  Distance(s'.loops[l], Create(s.conns[id].fd, id)) < Distance(s.loops[l], Create(s.conns[id].fd, id)))
  {
    NextIsEnabled(s, l);
    if NextOf(s, l).RunTask? {
      ClashOverTask(s, l, id);
    } else {
      ClashOverQuietStep(s, l, id);
    }
  }

  predicate NoAccepts(steps: seq<Step>) {
    forall i :: 0 <= i < |steps| ==> !steps[i].Accept?
  }

  /** So letting loop `l` run, and nothing else, ends in an insertion that finds its slot taken. */
  lemma {:induction false} ClashGoesWrong(s: State, l: Loop, id: Id) returns (steps: seq<Step>)
    requires Inv(s) && Clash(s, l, id)
    ensures IsRun(s, steps) && !SlotsFree(s, steps) && NoAccepts(steps)
    decreases if s.conns[id].status == Queued then 1 + Distance(s.loops[l], Create(s.conns[id].fd, id)) else 0
  {
    var step := NextOf(s, l);
    NextIsEnabled(s, l);
    if s.conns[id].status == Creating {
      ClashFindsSlotTaken(s, l, id);
    }
    if !SlotFree(s, step) {
      steps := [step];
      assert steps[1..] == [];
    } else {
      ClashStays(s, l, id);
      StepKeeps(s, step);
      var more := ClashGoesWrong(Apply(s, step), l, id);
      steps := [step] + more;
      assert steps[1..] == more;
    }
  }

  /** After a hand-off out of order, some steps of the target loop alone end in an insertion gone wrong. */
  lemma {:induction false} EarlyHandOffGoesWrong(s: State) returns (steps: seq<Step>)
    requires Inv(s) && Enabled(s, HandOff) && !HandsOffInOrder(s, HandOff)
    ensures IsRun(s, [HandOff] + steps) && !SlotsFree(s, [HandOff] + steps) && NoAccepts(steps)
  {
    if SlotFree(s, HandOff) {
      StepKeeps(s, HandOff);
      EarlyHandOffClashes(s);
      steps := ClashGoesWrong(Apply(s, HandOff), Target(s), |s.conns|);
    } else {
      steps := [];
    }
    assert ([HandOff] + steps)[1..] == steps;
  }

  lemma {:induction false} EarlyHandOffClashes(s: State)
    requires Inv(s) && Enabled(s, HandOff) && !HandsOffInOrder(s, HandOff) && SlotFree(s, HandOff)
    ensures Clash(Apply(s, HandOff), Target(s), |s.conns|)
  {
    var s' := Apply(s, HandOff);
    var fd, l := s.loops[MAIN].pc.fd, Target(s);
    var tasks := Tasks(s.loops[l]);
    var create := Create(fd, |s.conns|);
    assert LoopOk(s, l);
    assert create !in tasks;
    assert Tasks(s'.loops[l]) == tasks + [create];
    LastIsFirst(tasks, Erase(fd), create);
  }

  // ---------------------------------------------------------------- from accept to hand-off

  lemma {:induction false} InHandIsNotLive(s: State)
    requires Inv(s) && s.loops[MAIN].pc.HandingOff?
    ensures NotLive(s, s.loops[MAIN].pc.fd)
  {
    assert LoopOk(s, MAIN);
  }

  lemma {:induction false} InHandOverTask(s: State, l: Loop, fd: int, target: Loop)
    requires Inv(s) && Enabled(s, RunTask(l)) && target < |s.loops| && ErasedOn(s, fd, target)
    ensures ErasedOn(Apply(s, RunTask(l)), fd, target)
  {
    var s' := Apply(s, RunTask(l));
    TaskRemoved(s, l);
    if fd in s'.registry && l == target {
      assert Erase(fd) in [s.loops[l].pc.local[0]] + Tasks(s'.loops[l]);
    }
  }

  lemma {:induction false} InHandOverInsert(s: State, l: Loop, fd: int, target: Loop)
    requires Inv(s) && Enabled(s, Insert(l)) && target < |s.loops| && ErasedOn(s, fd, target) && NotLive(s, fd)
    ensures ErasedOn(Apply(s, Insert(l)), fd, target)
  {
    var s' := Apply(s, Insert(l));
    assert LoopOk(s, l);
    assert Live(s.conns[s.loops[l].pc.id].status);
    assert Tasks(s'.loops[l]) == Tasks(s.loops[l]);
  }

  lemma {:induction false} InHandOverStep(s: State, step: Step, fd: int, target: Loop)
    requires Inv(s) && Enabled(s, step) && !step.HandOff?
    requires target < |s.loops| && ErasedOn(s, fd, target) && NotLive(s, fd)
    ensures |Apply(s, step).loops| == |s.loops| && |Apply(s, step).conns| == |s.conns|
    ensures ErasedOn(Apply(s, step), fd, target)
  {
    match step
    case RunTask(l) => InHandOverTask(s, l, fd, target);
    case Insert(l) => InHandOverInsert(s, l, fd, target);
    case QueueErase(l) =>
      assert Tasks(Apply(s, step).loops[l]) == Tasks(s.loops[l]) + [Erase(s.loops[l].pc.fd)];
    case _ => QuietStepKeepsQueues(s, step);
  }

  /** A descriptor in hand that could be handed off in order can be so still after any other step. */
  lemma {:induction false} InHandStaysInOrder(s: State, step: Step)
    requires Inv(s) && Enabled(s, step) && !step.HandOff?
    requires s.loops[MAIN].pc.HandingOff? && ReusedInOrder(s, s.loops[MAIN].pc.fd)
    ensures var s' := Apply(s, step);
            && |s'.loops| == |s.loops| && s'.loops[MAIN].pc == s.loops[MAIN].pc
            && ReusedInOrder(s', s.loops[MAIN].pc.fd)
  {
    InHandIsNotLive(s);
    InHandOverStep(s, step, s.loops[MAIN].pc.fd, Target(s));
    SameTarget(s, Apply(s, step));
  }

  /** Without further accepts, at most the descriptor in hand is handed off, and that in order. */
  lemma {:induction false} NoAcceptsInOrder(s: State, steps: seq<Step>)
    requires Inv(s) && OrderOk(s) && IsRun(s, steps) && NoAccepts(steps)
    requires s.loops[MAIN].pc.HandingOff? ==> ReusedInOrder(s, s.loops[MAIN].pc.fd)
    ensures HandOffsInOrder(s, steps)
    decreases |steps|
  {
    if steps != [] {
      var step, next := steps[0], Apply(s, steps[0]);
      OrderKept(s, step);
      StepKeeps(s, step);
      if !step.HandOff? && s.loops[MAIN].pc.HandingOff? {
        InHandStaysInOrder(s, step);
      }
      assert forall i :: 0 <= i < |steps[1..]| ==> steps[1..][i] == steps[i + 1];
      NoAcceptsInOrder(next, steps[1..]);
    }
  }

  /** Whatever the loops do after this step, without further accepts, nothing is destroyed out of order. */
  ghost predicate StaysSafe(s: State, step: Step)
    requires Enabled(s, step)
  {
    forall steps :: IsRun(s, [step] + steps) && NoAccepts(steps) ==> OwnErases(s, [step] + steps)
  }

  lemma {:induction false} InOrderStaysSafe(s: State, step: Step)
    requires Inv(s) && OrderOk(s) && Enabled(s, step) && HandsOffInOrder(s, step)
    requires Apply(s, step).loops != []
    requires Apply(s, step).loops[MAIN].pc.HandingOff? ==>
               ReusedInOrder(Apply(s, step), Apply(s, step).loops[MAIN].pc.fd)
    ensures StaysSafe(s, step)
  {
    forall steps | IsRun(s, [step] + steps) && NoAccepts(steps) ensures OwnErases(s, [step] + steps) {
      assert ([step] + steps)[1..] == steps;
      OrderKept(s, step);
      StepKeeps(s, step);
      NoAcceptsInOrder(Apply(s, step), steps);
      HandOffsFreeSlots(s, [step] + steps);
      LifetimesAreSafe(s, [step] + steps);
    }
  }

  /**
   When a descriptor may be handed off, exactly.  In a state that has been safe so far, the hand-off is
   safe whatever the loops do next, if and only if an entry that the descriptor still has is to be
   erased by a functor that is queued already, on the very sub-loop the descriptor goes to.
   */
  lemma {:induction false} HandOffIsSafeIff(s: State)
    requires Inv(s) && OrderOk(s) && Enabled(s, HandOff)
    ensures HandsOffInOrder(s, HandOff) <==> StaysSafe(s, HandOff)
  {
    if HandsOffInOrder(s, HandOff) {
      InOrderStaysSafe(s, HandOff);
    } else {
      var steps := EarlyHandOffGoesWrong(s);
      LifetimesAreSafe(s, [HandOff] + steps);
    }
  }

  lemma {:induction false} SameTarget(s: State, s': State)
    requires |s.loops| == |s'.loops| > 0 && |s.conns| == |s'.conns|
    ensures Target(s) == Target(s')
  {
  }

  lemma {:induction false} AcceptKeepsReuse(s: State, fd: int)
    requires Enabled(s, Accept(fd))
    ensures ReusedInOrder(Apply(s, Accept(fd)), fd) <==> ReusedInOrder(s, fd)
  {
    QuietStepKeepsQueues(s, Accept(fd));
    SameTarget(s, Apply(s, Accept(fd)));
  }

  /**
   What accept must not return, exactly: the same condition, at the moment of accept.
   */
  lemma {:induction false} AcceptIsSafeIff(s: State, fd: int)
    requires Inv(s) && OrderOk(s) && Enabled(s, Accept(fd))
    ensures ReusedInOrder(s, fd) <==> StaysSafe(s, Accept(fd))
  {
    var s' := Apply(s, Accept(fd));
    AcceptKeepsReuse(s, fd);
    if ReusedInOrder(s, fd) {
      InOrderStaysSafe(s, Accept(fd));
    } else {
      StepKeeps(s, Accept(fd));
      var more := EarlyHandOffGoesWrong(s');
      var steps := [HandOff] + more;
      assert ([Accept(fd)] + steps)[1..] == steps;
      LifetimesAreSafe(s, [Accept(fd)] + steps);
    }
  }
}
