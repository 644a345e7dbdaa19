/**
 Runs in which a descriptor comes back from accept too early (HttpServer.cpp), with two sub-loops and
 with one: each ends with an epoll entry that points to a destroyed connection.
 */
module EarlyReuse {
  import opened Lifetime
  import ThreadPool

  /** These steps can be taken from `s` and lead to `t`. */
  ghost predicate Leads(s: State, steps: seq<Step>, t: State) {
    IsRun(s, steps) && After(s, steps) == t
  }

  lemma {:induction false} SameState(s: State, t: State)
    requires |s.loops| == |t.loops| && forall l :: 0 <= l < |t.loops| ==> s.loops[l] == t.loops[l]
    requires |s.conns| == |t.conns| && forall id :: 0 <= id < |t.conns| ==> s.conns[id] == t.conns[id]
    requires s.registry == t.registry && s.openFds == t.openFds
    ensures s == t
  {
    assert s.loops == t.loops && s.conns == t.conns;
  }

  lemma {:induction false} LeadsOn(s: State, step: Step, mid: State, steps: seq<Step>, t: State)
    requires Enabled(s, step) && Apply(s, step) == mid && Leads(mid, steps, t)
    ensures Leads(s, [step] + steps, t)
  {
    assert ([step] + steps)[1..] == steps;
  }

  lemma {:induction false} LeadsThrough(s: State, steps: seq<Step>, mid: State, more: seq<Step>, t: State)
    requires Leads(s, steps, mid) && Leads(mid, more, t)
    ensures Leads(s, steps + more, t)
    decreases |steps|
  {
    if steps == [] {
      assert steps + more == more;
    } else {
      LeadsThrough(Apply(s, steps[0]), steps[1..], mid, more, t);
      assert steps + more == [steps[0]] + (steps[1..] + more);
      LeadsOn(s, steps[0], Apply(s, steps[0]), steps[1..] + more, t);
    }
  }

  const ACCEPTING: LoopState := LoopState(Dispatching([]), [], map[])
  const IDLE: LoopState := LoopState(Waiting, [], map[])

  /** Two sub-loops; the first serves a connection on `fd`. */
  function Serving(fd: int): State {
    State([ACCEPTING, LoopState(Waiting, [], map[fd := 0]), IDLE], map[fd := 0], [Connection(fd, 1, Open, 0)], {fd})
  }

  /** That connection has just closed, and its erase functor is queued. */
  function JustClosed(fd: int): State {
    State([ACCEPTING, LoopState(Dispatching([]), [Erase(fd)], map[]), IDLE], map[fd := 0], [Connection(fd, 1, Closing, 1)], {})
  }

  /** Meanwhile the descriptor came back from accept, and the second sub-loop serves it. */
  function Reused(fd: int): State {
    State([ACCEPTING, LoopState(Dispatching([]), [Erase(fd)], map[]), LoopState(Waiting, [], map[fd := 1])],
          map[fd := 1], [Connection(fd, 1, Destroyed, 1), Connection(fd, 2, Open, 0)], {fd})
  }

  /** The erase functor has run: the new connection is gone, its epoll entry is not. */
  function Dangling(fd: int): State {
    State([ACCEPTING, LoopState(Draining([]), [], map[]), LoopState(Waiting, [], map[fd := 1])],
          map[], [Connection(fd, 1, Destroyed, 1), Connection(fd, 2, Destroyed, 0)], {fd})
  }

  /** One turn of loop `l` that creates a connection. */
  function CreateTurn(l: Loop): seq<Step> {
    [WaitReturn(l, []), TakeQueue(l), RunTask(l), Insert(l), DrainDone(l)]
  }

  /** What that turn does when the create functor is all there is to do. */
  function AfterCreateTurn(s: State, l: Loop, fd: int, id: Id): State
    requires l < |s.loops|
  {
    State(s.loops[l := LoopState(Waiting, [], map[fd := id])],
          s.registry[fd := id],
          WithStatus(Evict(WithStatus(s.conns, id, Creating), s.registry, fd), id, Open),
          s.openFds)
  }

  lemma {:induction false} CreateTurnLeads(s: State, l: Loop, fd: int, id: Id)
    requires l < |s.loops| && s.loops[l] == LoopState(Waiting, [Create(fd, id)], map[])
    requires id < |s.conns| && s.conns[id].fd == fd
    ensures Leads(s, CreateTurn(l), AfterCreateTurn(s, l, fd, id))
  {
    var task := [Create(fd, id)];
    var s1 := s.(loops := s.loops[l := LoopState(Dispatching([]), task, map[])]);
    var s2 := s.(loops := s.loops[l := LoopState(Draining(task), [], map[])]);
    assert task[1..] == [];
    var s3 := s.(loops := s.loops[l := LoopState(Inserting(id, []), [], map[fd := id])], conns := WithStatus(s.conns, id, Creating));
    assert Apply(s2, RunTask(l)) == s3;
    CreateTurnEnds(s, s3, l, fd, id);
    LeadsOn(s2, RunTask(l), s3, [Insert(l), DrainDone(l)], AfterCreateTurn(s, l, fd, id));
    LeadsOn(s1, TakeQueue(l), s2, [RunTask(l), Insert(l), DrainDone(l)], AfterCreateTurn(s, l, fd, id));
    LeadsOn(s, WaitReturn(l, []), s1, [TakeQueue(l), RunTask(l), Insert(l), DrainDone(l)], AfterCreateTurn(s, l, fd, id));
  }

  lemma {:induction false} CreateTurnEnds(s: State, s3: State, l: Loop, fd: int, id: Id)
    requires l < |s.loops| && id < |s.conns| && s.conns[id].fd == fd
    requires s3 == s.(loops := s.loops[l := LoopState(Inserting(id, []), [], map[fd := id])],
                      conns := WithStatus(s.conns, id, Creating))
    ensures Leads(s3, [Insert(l), DrainDone(l)], AfterCreateTurn(s, l, fd, id))
  {
    var t := AfterCreateTurn(s, l, fd, id);
    var s4 := t.(loops := s.loops[l := LoopState(Draining([]), [], map[fd := id])]);
    assert Apply(s3, Insert(l)) == s4;
    assert Apply(s4, DrainDone(l)) == t;
    LeadsOn(s4, DrainDone(l), t, [], t);
    LeadsOn(s3, Insert(l), s4, [DrainDone(l)], t);
  }

  /** The first connection has been accepted and handed to the first sub-loop. */
  function FirstAccepted(fd: int): State {
    State([ACCEPTING, LoopState(Waiting, [Create(fd, 0)], map[]), IDLE], map[], [Connection(fd, 1, Queued, 0)], {fd})
  }

  lemma {:induction false} LeadsToFirstAccepted(fd: int)
    ensures Leads(Start(2), [WaitReturn(0, []), Accept(fd), HandOff], FirstAccepted(fd))
  {
    assert Start(2).loops == [IDLE, IDLE, IDLE];
    var s1 := State([ACCEPTING, IDLE, IDLE], map[], [], {});
    assert ThreadPool.PickOf(0, 2) == 0;
    assert [] + [Create(fd, 0)] == [Create(fd, 0)];
    var s2 := State([LoopState(HandingOff(fd, []), [], map[]), IDLE, IDLE], map[], [], {fd});
    SameState(Apply(s1, Accept(fd)), s2);
    SameState(Apply(s2, HandOff), FirstAccepted(fd));
    LeadsOn(s2, HandOff, FirstAccepted(fd), [], FirstAccepted(fd));
    LeadsOn(s1, Accept(fd), s2, [HandOff], FirstAccepted(fd));
    LeadsOn(Start(2), WaitReturn(0, []), s1, [Accept(fd), HandOff], FirstAccepted(fd));
  }

  lemma {:induction false} LeadsToServing(fd: int)
    ensures Leads(FirstAccepted(fd), CreateTurn(1), Serving(fd))
  {
    CreateTurnLeads(FirstAccepted(fd), 1, fd, 0);
    SameState(AfterCreateTurn(FirstAccepted(fd), 1, fd, 0), Serving(fd));
  }

  lemma {:induction false} LeadsToJustClosed(fd: int)
    ensures Leads(Serving(fd), [WaitReturn(1, [0]), Handle(1, true), QueueErase(1)], JustClosed(fd))
  {
    var mid := Serving(fd).(loops := [ACCEPTING, LoopState(Dispatching([0]), [], map[fd := 0]), IDLE]);
    assert map[fd := 0 as Id] - {fd} == map[];
    assert {fd} - {fd} == {};
    assert [0 as Id][1..] == [] && [] + [Erase(fd)] == [Erase(fd)];
    var removing := JustClosed(fd).(loops := [ACCEPTING, LoopState(Removing(fd, []), [], map[]), IDLE]);
    SameState(Apply(mid, Handle(1, true)), removing);
    SameState(Apply(removing, QueueErase(1)), JustClosed(fd));
    LeadsOn(removing, QueueErase(1), JustClosed(fd), [], JustClosed(fd));
    LeadsOn(mid, Handle(1, true), removing, [QueueErase(1)], JustClosed(fd));
    LeadsOn(Serving(fd), WaitReturn(1, [0]), mid, [Handle(1, true), QueueErase(1)], JustClosed(fd));
  }

  /** The descriptor has come back from accept and gone to the second sub-loop. */
  function SecondAccepted(fd: int): State {
    State([ACCEPTING, LoopState(Dispatching([]), [Erase(fd)], map[]), LoopState(Waiting, [Create(fd, 1)], map[])],
          map[fd := 0], [Connection(fd, 1, Closing, 1), Connection(fd, 2, Queued, 0)], {fd})
  }

  lemma {:induction false} LeadsToSecondAccepted(fd: int)
    ensures Leads(JustClosed(fd), [Accept(fd), HandOff], SecondAccepted(fd))
  {
    assert ThreadPool.PickOf(1, 2) == 1;
    assert [] + [Create(fd, 1)] == [Create(fd, 1)];
    var inHand := JustClosed(fd).(loops := [LoopState(HandingOff(fd, []), [], map[]), JustClosed(fd).loops[1], IDLE], openFds := {fd});
    SameState(Apply(JustClosed(fd), Accept(fd)), inHand);
    SameState(Apply(inHand, HandOff), SecondAccepted(fd));
    LeadsOn(inHand, HandOff, SecondAccepted(fd), [], SecondAccepted(fd));
    LeadsOn(JustClosed(fd), Accept(fd), inHand, [HandOff], SecondAccepted(fd));
  }

  lemma {:induction false} LeadsToReused(fd: int)
    ensures Leads(SecondAccepted(fd), CreateTurn(2), Reused(fd))
  {
    CreateTurnLeads(SecondAccepted(fd), 2, fd, 1);
    SameState(AfterCreateTurn(SecondAccepted(fd), 2, fd, 1), Reused(fd));
  }

  lemma {:induction false} LeadsToDangling(fd: int)
    ensures Leads(Reused(fd), [TakeQueue(1), RunTask(1)], Dangling(fd))
  {
    var mid := Reused(fd).(loops := [ACCEPTING, LoopState(Draining([Erase(fd)]), [], map[]), LoopState(Waiting, [], map[fd := 1])]);
    assert map[fd := 1 as Id] - {fd} == map[];
    assert [Erase(fd)][1..] == [];
    SameState(Apply(mid, RunTask(1)), Dangling(fd));
    LeadsOn(mid, RunTask(1), Dangling(fd), [], Dangling(fd));
    LeadsOn(Reused(fd), TakeQueue(1), mid, [RunTask(1)], Dangling(fd));
  }

  /**
   Without the hypothesis it goes wrong: when accept returns a descriptor whose erase functor is
   outstanding on another sub-loop, that functor destroys the new connection, whose epoll entry stays,
   and the next wait of its loop hands out a destroyed connection.
   */
  lemma {:induction false} EarlyReuseDangles(fd: int) returns (steps: seq<Step>)
    ensures Leads(Start(2), steps, Dangling(fd))
    ensures !NothingDangles(Dangling(fd))
    ensures Enabled(Dangling(fd), WaitReturn(2, [1])) && Dangling(fd).conns[1].status == Destroyed
  {
    var first := FirstHalf(fd);
    var second := SecondHalf(fd);
    LeadsThrough(Start(2), first, JustClosed(fd), second, Dangling(fd));
    steps := first + second;
    assert fd in Dangling(fd).loops[2].table;
    assert InTable(Dangling(fd), 2, 1);
  }

  lemma {:induction false} FirstHalf(fd: int) returns (steps: seq<Step>)
    ensures Leads(Start(2), steps, JustClosed(fd))
  {
    LeadsToFirstAccepted(fd);
    LeadsToServing(fd);
    LeadsToJustClosed(fd);
    var accept, close := [WaitReturn(0, []), Accept(fd), HandOff], [WaitReturn(1, [0]), Handle(1, true), QueueErase(1)];
    LeadsThrough(FirstAccepted(fd), CreateTurn(1), Serving(fd), close, JustClosed(fd));
    LeadsThrough(Start(2), accept, FirstAccepted(fd), CreateTurn(1) + close, JustClosed(fd));
    steps := accept + (CreateTurn(1) + close);
  }

  lemma {:induction false} SecondHalf(fd: int) returns (steps: seq<Step>)
    ensures Leads(JustClosed(fd), steps, Dangling(fd))
  {
    LeadsToSecondAccepted(fd);
    LeadsToReused(fd);
    LeadsToDangling(fd);
    var erase := [TakeQueue(1), RunTask(1)];
    LeadsThrough(SecondAccepted(fd), CreateTurn(2), Reused(fd), erase, Dangling(fd));
    LeadsThrough(JustClosed(fd), [Accept(fd), HandOff], SecondAccepted(fd), CreateTurn(2) + erase, Dangling(fd));
    steps := [Accept(fd), HandOff] + (CreateTurn(2) + erase);
  }

  // ---------------------------------------------------------------- one sub-loop

  /** One sub-loop, in this state of its own, beside the accepting main loop. */
  function With(sub: LoopState, registry: map<int, Id>, conns: seq<Connection>, openFds: set<int>): State {
    State([ACCEPTING, sub], registry, conns, openFds)
  }

  function OnlyQueued(fd: int): State {
    With(LoopState(Waiting, [Create(fd, 0)], map[]), map[], [Connection(fd, 1, Queued, 0)], {fd})
  }

  function OnlyServing(fd: int): State {
    With(LoopState(Waiting, [], map[fd := 0]), map[fd := 0], [Connection(fd, 1, Open, 0)], {fd})
  }

  /** The only connection has closed its descriptor, and its erase functor is not queued yet. */
  function OnlyRemoving(fd: int): State {
    With(LoopState(Removing(fd, []), [], map[]), map[fd := 0], [Connection(fd, 1, Closing, 1)], {})
  }

  /** In between, the descriptor came back from accept: the functor that creates comes first. */
  function CreateBeforeErase(fd: int): State {
    With(LoopState(Dispatching([]), [Create(fd, 1), Erase(fd)], map[]), map[fd := 0],
         [Connection(fd, 1, Closing, 1), Connection(fd, 1, Queued, 0)], {fd})
  }

  /** The new connection has taken the table entry of the old one, which is destroyed. */
  function Replaced(fd: int): State {
    With(LoopState(Draining([Erase(fd)]), [], map[fd := 1]), map[fd := 1],
         [Connection(fd, 1, Destroyed, 1), Connection(fd, 1, Open, 0)], {fd})
  }

  /** And the erase functor has destroyed the new one too, whose epoll entry stays. */
  function OnlyDangling(fd: int): State {
    With(LoopState(Waiting, [], map[fd := 1]), map[],
         [Connection(fd, 1, Destroyed, 1), Connection(fd, 1, Destroyed, 0)], {fd})
  }

  lemma {:induction false} LeadsToOnlyQueued(fd: int)
    ensures Leads(Start(1), [WaitReturn(0, []), Accept(fd), HandOff], OnlyQueued(fd))
  {
    assert Start(1).loops == [IDLE, IDLE];
    var s1 := With(IDLE, map[], [], {});
    var s2 := State([LoopState(HandingOff(fd, []), [], map[]), IDLE], map[], [], {fd});
    assert [] + [Create(fd, 0)] == [Create(fd, 0)];
    SameState(Apply(s1, Accept(fd)), s2);
    SameState(Apply(s2, HandOff), OnlyQueued(fd));
    LeadsOn(s2, HandOff, OnlyQueued(fd), [], OnlyQueued(fd));
    LeadsOn(s1, Accept(fd), s2, [HandOff], OnlyQueued(fd));
    LeadsOn(Start(1), WaitReturn(0, []), s1, [Accept(fd), HandOff], OnlyQueued(fd));
  }

  lemma {:induction false} LeadsToOnlyServing(fd: int)
    ensures Leads(OnlyQueued(fd), CreateTurn(1), OnlyServing(fd))
  {
    CreateTurnLeads(OnlyQueued(fd), 1, fd, 0);
    SameState(AfterCreateTurn(OnlyQueued(fd), 1, fd, 0), OnlyServing(fd));
  }

  lemma {:induction false} LeadsToOnlyRemoving(fd: int)
    ensures Leads(OnlyServing(fd), [WaitReturn(1, [0]), Handle(1, true)], OnlyRemoving(fd))
  {
    var mid := OnlyServing(fd).(loops := [ACCEPTING, LoopState(Dispatching([0]), [], map[fd := 0])]);
    assert map[fd := 0 as Id] - {fd} == map[] && {fd} - {fd} == {} && [0 as Id][1..] == [];
    SameState(Apply(mid, Handle(1, true)), OnlyRemoving(fd));
    LeadsOn(mid, Handle(1, true), OnlyRemoving(fd), [], OnlyRemoving(fd));
    LeadsOn(OnlyServing(fd), WaitReturn(1, [0]), mid, [Handle(1, true)], OnlyRemoving(fd));
  }

  lemma {:induction false} LeadsToCreateBeforeErase(fd: int)
    ensures Leads(OnlyRemoving(fd), [Accept(fd), HandOff, QueueErase(1)], CreateBeforeErase(fd))
  {
    var inHand := OnlyRemoving(fd).(loops := [LoopState(HandingOff(fd, []), [], map[]), OnlyRemoving(fd).loops[1]], openFds := {fd});
    var queued := CreateBeforeErase(fd).(loops := [ACCEPTING, LoopState(Removing(fd, []), [Create(fd, 1)], map[])]);
    assert [] + [Create(fd, 1)] == [Create(fd, 1)] && [Create(fd, 1)] + [Erase(fd)] == [Create(fd, 1), Erase(fd)];
    SameState(Apply(OnlyRemoving(fd), Accept(fd)), inHand);
    SameState(Apply(inHand, HandOff), queued);
    SameState(Apply(queued, QueueErase(1)), CreateBeforeErase(fd));
    LeadsOn(queued, QueueErase(1), CreateBeforeErase(fd), [], CreateBeforeErase(fd));
    LeadsOn(inHand, HandOff, queued, [QueueErase(1)], CreateBeforeErase(fd));
    LeadsOn(OnlyRemoving(fd), Accept(fd), inHand, [HandOff, QueueErase(1)], CreateBeforeErase(fd));
  }

  lemma {:induction false} LeadsToReplaced(fd: int)
    ensures Leads(CreateBeforeErase(fd), [TakeQueue(1), RunTask(1), Insert(1)], Replaced(fd))
  {
    var tasks := [Create(fd, 1), Erase(fd)];
    var taken := CreateBeforeErase(fd).(loops := [ACCEPTING, LoopState(Draining(tasks), [], map[])]);
    var creating := State([ACCEPTING, LoopState(Inserting(1, [Erase(fd)]), [], map[fd := 1])], map[fd := 0],
                          [Connection(fd, 1, Closing, 1), Connection(fd, 1, Creating, 0)], {fd});
    assert tasks[1..] == [Erase(fd)];
    SameState(Apply(taken, RunTask(1)), creating);
    SameState(Apply(creating, Insert(1)), Replaced(fd));
    LeadsOn(creating, Insert(1), Replaced(fd), [], Replaced(fd));
    LeadsOn(taken, RunTask(1), creating, [Insert(1)], Replaced(fd));
    LeadsOn(CreateBeforeErase(fd), TakeQueue(1), taken, [RunTask(1), Insert(1)], Replaced(fd));
  }

  lemma {:induction false} LeadsToOnlyDangling(fd: int)
    ensures Leads(Replaced(fd), [RunTask(1), DrainDone(1)], OnlyDangling(fd))
  {
    var drained := OnlyDangling(fd).(loops := [ACCEPTING, LoopState(Draining([]), [], map[fd := 1])]);
    assert map[fd := 1 as Id] - {fd} == map[] && [Erase(fd)][1..] == [];
    SameState(Apply(Replaced(fd), RunTask(1)), drained);
    SameState(Apply(drained, DrainDone(1)), OnlyDangling(fd));
    LeadsOn(drained, DrainDone(1), OnlyDangling(fd), [], OnlyDangling(fd));
    LeadsOn(Replaced(fd), RunTask(1), drained, [DrainDone(1)], OnlyDangling(fd));
  }

  /**
   Even one sub-loop is not enough: when accept returns a descriptor between its close and the queueing
   of its erase functor, that functor comes behind the new creation and destroys the new connection.
   */
  lemma {:induction false} OneSubLoopDangles(fd: int) returns (steps: seq<Step>)
    ensures Leads(Start(1), steps, OnlyDangling(fd))
    ensures !NothingDangles(OnlyDangling(fd))
    ensures Enabled(OnlyDangling(fd), WaitReturn(1, [1])) && OnlyDangling(fd).conns[1].status == Destroyed
  {
    LeadsToOnlyQueued(fd);
    LeadsToOnlyServing(fd);
    LeadsToOnlyRemoving(fd);
    var accept := [WaitReturn(0, []), Accept(fd), HandOff];
    var close := [WaitReturn(1, [0]), Handle(1, true)];
    LeadsThrough(OnlyQueued(fd), CreateTurn(1), OnlyServing(fd), close, OnlyRemoving(fd));
    LeadsThrough(Start(1), accept, OnlyQueued(fd), CreateTurn(1) + close, OnlyRemoving(fd));
    var end := AfterOnlyRemoving(fd);
    steps := accept + (CreateTurn(1) + close) + end;
    LeadsThrough(Start(1), accept + (CreateTurn(1) + close), OnlyRemoving(fd), end, OnlyDangling(fd));
    assert fd in OnlyDangling(fd).loops[1].table;
    assert InTable(OnlyDangling(fd), 1, 1);
  }

  lemma {:induction false} AfterOnlyRemoving(fd: int) returns (steps: seq<Step>)
    ensures Leads(OnlyRemoving(fd), steps, OnlyDangling(fd))
  {
    LeadsToCreateBeforeErase(fd);
    LeadsToReplaced(fd);
    LeadsToOnlyDangling(fd);
    var reuse, erase := [Accept(fd), HandOff, QueueErase(1)], [RunTask(1), DrainDone(1)];
    var replace := [TakeQueue(1), RunTask(1), Insert(1)];
    LeadsThrough(CreateBeforeErase(fd), replace, Replaced(fd), erase, OnlyDangling(fd));
    LeadsThrough(OnlyRemoving(fd), reuse, CreateBeforeErase(fd), replace + erase, OnlyDangling(fd));
    steps := reuse + (replace + erase);
  }
}
