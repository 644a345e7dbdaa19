/**
 Each loop of the server follows the queue protocol: what a loop does in a run of Lifetime is a run of
 LoopProtocol, with the same functors in the queue and under way.  So what is proved there about tasks
 holds for the functors that create and erase connections.  Lifetime has no eventfd of its own; here a
 functor is queued and the eventfd written in one go, and every wait that has room reports the eventfd
 when it is readable.
 */
module ServerLoops {
  import opened Reactor
  import Lifetime
  import Protocol = LoopProtocol

  function AsFunctor(t: Lifetime.Task): Functor {
    match t
    case Create(fd, _) => CreateConnection(fd)
    case Erase(fd) => EraseConnection(fd)
  }

  function AsFunctors(ts: seq<Lifetime.Task>): seq<Functor> {
    seq(|ts|, i requires 0 <= i < |ts| => AsFunctor(ts[i]))
  }

  function Others(n: nat): seq<Protocol.Event> {
    seq(n, _ => Protocol.OtherEvent)
  }

  function PcOf(pc: Lifetime.Pc): Protocol.Pc {
    match pc
    case Waiting => Protocol.AtWait
    case Dispatching(batch) => Protocol.Dispatching(Others(|batch|))
    case HandingOff(_, batch) => Protocol.Dispatching(Others(|batch|))
    case Removing(_, batch) => Protocol.Dispatching(Others(|batch|))
    case Draining(local) => Protocol.Running(AsFunctors(local))
    case Inserting(_, local) => Protocol.Running(AsFunctors(local))
  }

  /** A loop of the server and a state of the protocol between whole calls of `queueInLoop`. */
  ghost predicate Follows(ls: Lifetime.LoopState, p: Protocol.State) {
    && p.pc == PcOf(ls.pc) && p.pending == AsFunctors(ls.pending)
    && !p.quit && p.atWakeup == {}
  }

  // ---------------------------------------------------------------- functors queued and run

  /** What happened to the functors of one loop, each with the number of drains begun by then. */
  datatype Trace = Trace(queued: seq<Functor>, stamps: seq<nat>, run: seq<Functor>, ranIn: seq<nat>, drains: nat)

  const NOTHING: Trace := Trace([], [], [], [], 0)

  function Queued(f: Functor, drains: nat): Trace { Trace([f], [drains], [], [], 0) }

  function Ran(f: Functor, drains: nat): Trace { Trace([], [], [f], [drains], 0) }

  function Then(a: Trace, b: Trace): Trace {
    Trace(a.queued + b.queued, a.stamps + b.stamps, a.run + b.run, a.ranIn + b.ranIn, a.drains + b.drains)
  }

  /** What one step of the server does to the functors of loop `l`, which has begun so many drains. */
  function StepTrace(s: Lifetime.State, step: Lifetime.Step, l: Lifetime.Loop, drains: nat): Trace
    requires Lifetime.Enabled(s, step)
  {
    match step
    case HandOff =>
      if l == Lifetime.Target(s) && l != Lifetime.MAIN then Queued(CreateConnection(s.loops[Lifetime.MAIN].pc.fd), drains)
      else NOTHING
    case QueueErase(m) => if m == l then Queued(EraseConnection(s.loops[l].pc.fd), drains) else NOTHING
    case TakeQueue(m) => if m == l then NOTHING.(drains := 1) else NOTHING
    case RunTask(m) => if m == l then Ran(AsFunctor(s.loops[l].pc.local[0]), drains) else NOTHING
    case _ => NOTHING
  }

  function RunTrace(s: Lifetime.State, steps: seq<Lifetime.Step>, l: Lifetime.Loop, drains: nat): Trace
    requires Lifetime.IsRun(s, steps)
    decreases |steps|
  {
    if steps == [] then NOTHING
    else
      var first := StepTrace(s, steps[0], l, drains);
      Then(first, RunTrace(Lifetime.Apply(s, steps[0]), steps[1..], l, drains + first.drains))
  }

  // ---------------------------------------------------------------- runs of the protocol

  /** From `p` these steps lead to `q`, with these functors queued and run. */
  ghost predicate Leads(p: Protocol.State, moves: seq<Protocol.Step>, q: Protocol.State, t: Trace) {
    && Protocol.IsRun(p, moves) && Protocol.After(p, moves) == q
    && q.queued == p.queued + t.queued && q.stamps == p.stamps + t.stamps
    && q.executed == p.executed + t.run && q.ranIn == p.ranIn + t.ranIn
    && q.drains == p.drains + t.drains
  }

  lemma {:induction false} NoMoves(p: Protocol.State)
    ensures Leads(p, [], p, NOTHING)
  {
  }

  lemma {:induction false} OneMove(p: Protocol.State, move: Protocol.Step, q: Protocol.State, t: Trace)
    requires Protocol.Enabled(p, move) && Protocol.Apply(p, move) == q
    requires q.queued == p.queued + t.queued && q.stamps == p.stamps + t.stamps
    requires q.executed == p.executed + t.run && q.ranIn == p.ranIn + t.ranIn
    requires q.drains == p.drains + t.drains
    ensures Leads(p, [move], q, t)
  {
    assert [move][1..] == [];
  }

  lemma {:induction false} Assoc<T>(a: seq<T>, b: seq<T>, c: seq<T>)
    ensures a + b + c == a + (b + c)
  {
  }

  lemma {:induction false} MovesThrough(p: Protocol.State, moves: seq<Protocol.Step>, q: Protocol.State,
                                        more: seq<Protocol.Step>, r: Protocol.State)
    requires Protocol.IsRun(p, moves) && Protocol.After(p, moves) == q
    requires Protocol.IsRun(q, more) && Protocol.After(q, more) == r
    ensures Protocol.IsRun(p, moves + more) && Protocol.After(p, moves + more) == r
    decreases |moves|
  {
    if moves == [] {
      assert moves + more == more;
    } else {
      MovesThrough(Protocol.Apply(p, moves[0]), moves[1..], q, more, r);
      assert (moves + more)[0] == moves[0] && (moves + more)[1..] == moves[1..] + more;
    }
  }

  lemma {:induction false} LeadsThrough(p: Protocol.State, moves: seq<Protocol.Step>, q: Protocol.State,
                                        more: seq<Protocol.Step>, r: Protocol.State, t: Trace, t': Trace)
    requires Leads(p, moves, q, t) && Leads(q, more, r, t')
    ensures Leads(p, moves + more, r, Then(t, t'))
  {
    MovesThrough(p, moves, q, more, r);
    Assoc(p.queued, t.queued, t'.queued);
    Assoc(p.stamps, t.stamps, t'.stamps);
    Assoc(p.executed, t.run, t'.run);
    Assoc(p.ranIn, t.ranIn, t'.ranIn);
  }

  lemma {:induction false} ThenNothing(t: Trace)
    ensures Then(t, NOTHING) == t && Then(NOTHING, t) == t
  {
  }

  // ---------------------------------------------------------------- each step of the server

  /** A whole call of `queueInLoop`: push, then write the eventfd. */
  lemma {:induction false} QueueFollows(ls: Lifetime.LoopState, p: Protocol.State, thread: Protocol.Thread,
                                        t: Lifetime.Task)
    returns (moves: seq<Protocol.Step>, q: Protocol.State)
    requires Follows(ls, p) && Protocol.MayCall(p, thread)
    ensures Leads(p, moves, q, Queued(AsFunctor(t), p.drains))
    ensures q.pc == p.pc && q.pending == AsFunctors(ls.pending + [t]) && !q.quit && q.atWakeup == {}
  {
    var push, write := Protocol.Push(thread, AsFunctor(t)), Protocol.Write(thread);
    var pushed := Protocol.Apply(p, push);
    q := Protocol.Apply(pushed, write);
    OneMove(p, push, pushed, Queued(AsFunctor(t), p.drains));
    OneMove(pushed, write, q, NOTHING);
    moves := [push] + [write];
    LeadsThrough(p, [push], pushed, [write], q, Queued(AsFunctor(t), p.drains), NOTHING);
    ThenNothing(Queued(AsFunctor(t), p.drains));
    assert {} + {thread} - {thread} == {};
    assert AsFunctors(ls.pending + [t]) == AsFunctors(ls.pending) + [AsFunctor(t)];
  }

  /** The eventfd is reported first, and emptied by its callback. */
  lemma {:induction false} WakeupFollows(p: Protocol.State, others: seq<Protocol.Event>)
    returns (moves: seq<Protocol.Step>, q: Protocol.State)
    requires p.pc == Protocol.AtWait && p.atWakeup == {} && p.counter > 0 && |others| < MAX_EVENTS
    requires forall i :: 0 <= i < |others| ==> others[i] == Protocol.OtherEvent
    ensures Leads(p, moves, q, NOTHING)
    ensures q == p.(pc := Protocol.Dispatching(others), counter := 0)
  {
    var events := [Protocol.WakeupEvent] + others;
    var woken := p.(pc := Protocol.Dispatching(events));
    q := p.(pc := Protocol.Dispatching(others), counter := 0);
    assert forall i :: 0 < i < |events| ==> events[i] == others[i - 1];
    OneMove(p, Protocol.Wake(events), woken, NOTHING);
    assert events[1..] == others;
    OneMove(woken, Protocol.Dispatch, q, NOTHING);
    moves := [Protocol.Wake(events)] + [Protocol.Dispatch];
    LeadsThrough(p, [Protocol.Wake(events)], woken, [Protocol.Dispatch], q, NOTHING, NOTHING);
  }

  /** A wait that reports the batch, and before it the eventfd if it is readable and there is room. */
  lemma {:induction false} WaitFollows(ls: Lifetime.LoopState, p: Protocol.State, batch: seq<Lifetime.Id>)
    returns (moves: seq<Protocol.Step>, q: Protocol.State)
    requires Follows(ls, p) && ls.pc == Lifetime.Waiting && |batch| <= MAX_EVENTS
    ensures Leads(p, moves, q, NOTHING)
    ensures Follows(ls.(pc := Lifetime.Dispatching(batch)), q)
    ensures p.counter > 0 && |batch| < MAX_EVENTS ==> q.counter == 0
  {
    var others := Others(|batch|);
    if p.counter > 0 && |batch| < MAX_EVENTS {
      moves, q := WakeupFollows(p, others);
    } else {
      q := Protocol.Apply(p, Protocol.Wake(others));
      moves := [Protocol.Wake(others)];
      OneMove(p, Protocol.Wake(others), q, NOTHING);
    }
  }

  /** One event, without what its callback may queue. */
  lemma {:induction false} EventFollows(ls: Lifetime.LoopState, p: Protocol.State, next: Lifetime.LoopState)
    returns (moves: seq<Protocol.Step>, q: Protocol.State)
    requires Follows(ls, p) && ls.pc.Dispatching? && ls.pc.batch != []
    requires next.pending == ls.pending && PcOf(next.pc) == Protocol.Dispatching(Others(|ls.pc.batch| - 1))
    ensures Leads(p, moves, q, NOTHING)
    ensures Follows(next, q)
  {
    q := Protocol.Apply(p, Protocol.Dispatch);
    moves := [Protocol.Dispatch];
    OneMove(p, Protocol.Dispatch, q, NOTHING);
    assert Others(|ls.pc.batch|)[1..] == Others(|ls.pc.batch| - 1);
  }

  lemma {:induction false} TakeFollows(ls: Lifetime.LoopState, p: Protocol.State)
    returns (moves: seq<Protocol.Step>, q: Protocol.State)
    requires Follows(ls, p) && ls.pc == Lifetime.Dispatching([])
    ensures Leads(p, moves, q, NOTHING.(drains := 1))
    ensures Follows(ls.(pc := Lifetime.Draining(ls.pending), pending := []), q)
  {
    assert Others(0) == [];
    q := Protocol.Apply(p, Protocol.Take);
    moves := [Protocol.Take];
    OneMove(p, Protocol.Take, q, NOTHING.(drains := 1));
    assert AsFunctors([]) == [];
  }

  lemma {:induction false} RunFollows(ls: Lifetime.LoopState, p: Protocol.State, next: Lifetime.LoopState)
    returns (moves: seq<Protocol.Step>, q: Protocol.State)
    requires Follows(ls, p) && ls.pc.Draining? && ls.pc.local != []
    requires next.pending == ls.pending && PcOf(next.pc) == Protocol.Running(AsFunctors(ls.pc.local[1..]))
    ensures Leads(p, moves, q, Ran(AsFunctor(ls.pc.local[0]), p.drains))
    ensures Follows(next, q)
  {
    q := Protocol.Apply(p, Protocol.Run);
    moves := [Protocol.Run];
    OneMove(p, Protocol.Run, q, Ran(AsFunctor(ls.pc.local[0]), p.drains));
    assert AsFunctors(ls.pc.local)[1..] == AsFunctors(ls.pc.local[1..]);
  }

  /** The drain is over, no quit is observed, and the loop waits again. */
  lemma {:induction false} DoneFollows(ls: Lifetime.LoopState, p: Protocol.State)
    returns (moves: seq<Protocol.Step>, q: Protocol.State)
    requires Follows(ls, p) && ls.pc == Lifetime.Draining([])
    ensures Leads(p, moves, q, NOTHING)
    ensures Follows(ls.(pc := Lifetime.Waiting), q)
  {
    assert AsFunctors([]) == [];
    var mid := Protocol.Apply(p, Protocol.FinishDrain);
    q := Protocol.Apply(mid, Protocol.Check);
    moves := [Protocol.FinishDrain] + [Protocol.Check];
    OneMove(p, Protocol.FinishDrain, mid, NOTHING);
    OneMove(mid, Protocol.Check, q, NOTHING);
    LeadsThrough(p, [Protocol.FinishDrain], mid, [Protocol.Check], q, NOTHING, NOTHING);
  }

  /** A hand-off: the main loop goes on with its batch, and another loop may have a functor more. */
  lemma {:induction false} HandOffFollows(s: Lifetime.State, l: Lifetime.Loop, p: Protocol.State)
    returns (moves: seq<Protocol.Step>, q: Protocol.State)
    requires Lifetime.Enabled(s, Lifetime.HandOff) && l < |s.loops| && Follows(s.loops[l], p)
    ensures Leads(p, moves, q, StepTrace(s, Lifetime.HandOff, l, p.drains))
    ensures Follows(Lifetime.Apply(s, Lifetime.HandOff).loops[l], q)
  {
    if l == Lifetime.Target(s) && l != Lifetime.MAIN {
      moves, q := QueueFollows(s.loops[l], p, 1, Lifetime.Create(s.loops[Lifetime.MAIN].pc.fd, |s.conns|));
    } else {
      NoMoves(p);
      moves, q := [], p;
    }
  }

  /** Every step of the server is some steps, or none, of loop `l` in the protocol. */
  lemma {:induction false} StepFollows(s: Lifetime.State, step: Lifetime.Step, l: Lifetime.Loop, p: Protocol.State)
    returns (moves: seq<Protocol.Step>, q: Protocol.State)
    requires Lifetime.Enabled(s, step) && l < |s.loops| && Follows(s.loops[l], p)
    ensures |Lifetime.Apply(s, step).loops| == |s.loops|
    ensures Leads(p, moves, q, StepTrace(s, step, l, p.drains))
    ensures Follows(Lifetime.Apply(s, step).loops[l], q)
  {
    var ls, next := s.loops[l], Lifetime.Apply(s, step).loops[l];
    NoMoves(p);
    moves, q := [], p;
    match step
    case Accept(fd) =>
    case HandOff => moves, q := HandOffFollows(s, l, p);
    case WaitReturn(m, batch) => if m == l { moves, q := WaitFollows(ls, p, batch); }
    case Handle(m, close) => if m == l { moves, q := EventFollows(ls, p, next); }
    case QueueErase(m) => if m == l { moves, q := QueueFollows(ls, p, Protocol.LOOP, Lifetime.Erase(ls.pc.fd)); }
    case TakeQueue(m) => if m == l { moves, q := TakeFollows(ls, p); }
    case RunTask(m) => if m == l { moves, q := RunFollows(ls, p, next); }
    case Insert(m) =>
    case DrainDone(m) => if m == l { moves, q := DoneFollows(ls, p); }
  }

  lemma {:induction false} RunOfServerFollows(s: Lifetime.State, steps: seq<Lifetime.Step>, l: Lifetime.Loop, p: Protocol.State)
    returns (moves: seq<Protocol.Step>, q: Protocol.State)
    requires Lifetime.IsRun(s, steps) && l < |s.loops| && Follows(s.loops[l], p)
    ensures |Lifetime.After(s, steps).loops| == |s.loops|
    ensures Leads(p, moves, q, RunTrace(s, steps, l, p.drains))
    ensures Follows(Lifetime.After(s, steps).loops[l], q)
    decreases |steps|
  {
    if steps == [] {
      NoMoves(p);
      moves, q := [], p;
    } else {
      var next := Lifetime.Apply(s, steps[0]);
      var first, mid := StepFollows(s, steps[0], l, p);
      var second;
      second, q := RunOfServerFollows(next, steps[1..], l, mid);
      moves := first + second;
      RunTraceFirst(s, steps, l, p.drains, mid.drains);
      LeadsThrough(p, first, mid, second, q, StepTrace(s, steps[0], l, p.drains), RunTrace(next, steps[1..], l, mid.drains));
    }
  }

  lemma {:induction false} RunTraceFirst(s: Lifetime.State, steps: seq<Lifetime.Step>, l: Lifetime.Loop,
                                         drains: nat, drains': nat)
    requires Lifetime.IsRun(s, steps) && steps != []
    requires drains' == drains + StepTrace(s, steps[0], l, drains).drains
    ensures RunTrace(s, steps, l, drains) ==
            Then(StepTrace(s, steps[0], l, drains), RunTrace(Lifetime.Apply(s, steps[0]), steps[1..], l, drains'))
  {
    var first, next := StepTrace(s, steps[0], l, drains), Lifetime.Apply(s, steps[0]);
    var rest := RunTrace(next, steps[1..], l, drains');
    assert RunTrace(s, steps, l, drains) == Then(first, rest);
  }

  // ---------------------------------------------------------------- main results

  /**
   Whatever the server does, each of its loops is in a state that the queue protocol reaches, with the
   same functors queued so far, run so far, under way and pending, in the same drains; and a loop that
   waits with functors pending has a readable eventfd there.
   */
  lemma {:induction false} LoopsFollowProtocol(subLoops: nat, steps: seq<Lifetime.Step>, l: Lifetime.Loop)
    returns (moves: seq<Protocol.Step>)
    requires Lifetime.IsRun(Lifetime.Start(subLoops), steps) && l <= subLoops
    ensures l < |Lifetime.After(Lifetime.Start(subLoops), steps).loops|
    ensures Protocol.IsRun(Protocol.INIT, moves)
    ensures var p, ls := Protocol.After(Protocol.INIT, moves), Lifetime.After(Lifetime.Start(subLoops), steps).loops[l];
            && Follows(ls, p)
            && RunTrace(Lifetime.Start(subLoops), steps, l, 0) == Trace(p.queued, p.stamps, p.executed, p.ranIn, p.drains)
            && (ls.pc == Lifetime.Waiting && ls.pending != [] ==> p.counter > 0)
  {
    var start := StartLeads();
    var rest, q := RunOfServerFollows(Lifetime.Start(subLoops), steps, l, WAITING);
    moves := start + rest;
    StartThenRest(start, rest, q, RunTrace(Lifetime.Start(subLoops), steps, l, 0));
    WaitingHasWakeup(moves, Lifetime.After(Lifetime.Start(subLoops), steps).loops[l]);
  }

  /** A loop of the protocol that has just started to wait. */
  const WAITING: Protocol.State := Protocol.INIT.(pc := Protocol.AtWait)

  lemma {:induction false} StartLeads() returns (moves: seq<Protocol.Step>)
    ensures Leads(Protocol.INIT, moves, WAITING, NOTHING)
  {
    var started := Protocol.INIT.(pc := Protocol.AtCheck);
    OneMove(Protocol.INIT, Protocol.Start, started, NOTHING);
    OneMove(started, Protocol.Check, WAITING, NOTHING);
    moves := [Protocol.Start] + [Protocol.Check];
    LeadsThrough(Protocol.INIT, [Protocol.Start], started, [Protocol.Check], WAITING, NOTHING, NOTHING);
    ThenNothing(NOTHING);
  }

  lemma {:induction false} StartThenRest(start: seq<Protocol.Step>, rest: seq<Protocol.Step>, q: Protocol.State, t: Trace)
    requires Leads(Protocol.INIT, start, WAITING, NOTHING) && Leads(WAITING, rest, q, t)
    ensures Protocol.IsRun(Protocol.INIT, start + rest) && Protocol.After(Protocol.INIT, start + rest) == q
    ensures t == Trace(q.queued, q.stamps, q.executed, q.ranIn, q.drains)
  {
    MovesThrough(Protocol.INIT, start, WAITING, rest, q);
    assert [] + t.queued == t.queued && [] + t.stamps == t.stamps && [] + t.run == t.run && [] + t.ranIn == t.ranIn;
  }

  lemma {:induction false} WaitingHasWakeup(moves: seq<Protocol.Step>, ls: Lifetime.LoopState)
    requires Protocol.IsRun(Protocol.INIT, moves) && Follows(ls, Protocol.After(Protocol.INIT, moves))
    ensures ls.pc == Lifetime.Waiting && ls.pending != [] ==> Protocol.After(Protocol.INIT, moves).counter > 0
  {
    Protocol.ReachableStatesAreSafe(moves);
    assert ls.pending != [] ==> |AsFunctors(ls.pending)| > 0;
  }

  /**
   So the functors that create and erase connections are each run once, in the order in which they
   were queued on their loop, each in the first drain begun after it was queued; those not run yet are
   under way in the current drain or still pending, in order.
   */
  lemma {:induction false} FunctorsRunInNextDrain(subLoops: nat, steps: seq<Lifetime.Step>, l: Lifetime.Loop)
    requires Lifetime.IsRun(Lifetime.Start(subLoops), steps) && l <= subLoops
    ensures l < |Lifetime.After(Lifetime.Start(subLoops), steps).loops|
    ensures var t, ls := RunTrace(Lifetime.Start(subLoops), steps, l, 0), Lifetime.After(Lifetime.Start(subLoops), steps).loops[l];
            && t.queued == t.run + AsFunctors(Lifetime.Tasks(ls))
            && |t.stamps| == |t.queued| && |t.ranIn| == |t.run|
            && (forall i :: 0 <= i < |t.run| ==> t.ranIn[i] == t.stamps[i] + 1)
            && (forall i :: |t.run| <= i < |t.stamps| ==>
                  t.stamps[i] + (if i < |t.run| + |Lifetime.Local(ls.pc)| then 1 else 0) == t.drains)
  {
    var moves := LoopsFollowProtocol(subLoops, steps, l);
    Protocol.ReachableStatesAreSafe(moves);
    var p := Protocol.After(Protocol.INIT, moves);
    var ls := Lifetime.After(Lifetime.Start(subLoops), steps).loops[l];
    FollowsTasks(ls, p);
    Assoc(p.executed, Protocol.Local(p), p.pending);
  }

  lemma {:induction false} FollowsTasks(ls: Lifetime.LoopState, p: Protocol.State)
    requires Follows(ls, p)
    ensures AsFunctors(Lifetime.Tasks(ls)) == Protocol.Local(p) + p.pending
    ensures |Lifetime.Local(ls.pc)| == |Protocol.Local(p)|
  {
    assert Protocol.Local(p) == AsFunctors(Lifetime.Local(ls.pc));
    assert AsFunctors(Lifetime.Tasks(ls)) == AsFunctors(Lifetime.Local(ls.pc)) + AsFunctors(ls.pending);
  }
}
