/**
 Who may still point to a connection (HttpServer.cpp, EventLoop.cpp): the main loop accepts and hands
 descriptors out, every sub-loop creates, serves, closes and erases its connections, and all of them
 share one table from descriptors to connections.  Any number of loops, any interleaving.

 A connection is named by its number in the order of acceptance; the descriptor it got from the kernel
 may be given out again as soon as it has been closed.  Only then is its erase functor queued, and only
 when that functor runs is its entry in the shared table erased, by descriptor.
 */
module Lifetime {
  import Reactor
  import ThreadPool

  type Id = nat
  type Loop = nat
  const MAIN: Loop := 0

  datatype Status =
    | Queued     // accepted; the functor that creates it has not run
    | Creating   // constructed and registered with epoll, not yet in the shared table
    | Open       // in the shared table, served
    | Closing    // descriptor closed, erase functor queued
    | Destroyed

  datatype Connection = Connection(fd: int, loop: Loop, status: Status, closes: nat)

  datatype Task = Create(fd: int, id: Id) | Erase(fd: int)

  datatype Pc =
    | Waiting
    | Dispatching(batch: seq<Id>)
    | HandingOff(fd: int, batch: seq<Id>)   // the main loop, between accept and giving the descriptor away
    | Removing(fd: int, batch: seq<Id>)     // between closing a descriptor and queueing its erase functor
    | Draining(local: seq<Task>)
    | Inserting(id: Id, local: seq<Task>)   // in a create functor, before it takes the table's lock

  datatype LoopState = LoopState(pc: Pc, pending: seq<Task>, table: map<int, Id>)

  datatype State = State(
    loops: seq<LoopState>,       // loop 0 is the main loop
    registry: map<int, Id>,      // connections_
    conns: seq<Connection>,
    openFds: set<int>)           // descriptors of connections that the kernel regards as open

  datatype Step =
    | Accept(fd: int)
    | HandOff
    | WaitReturn(loop: Loop, batch: seq<Id>)
    | Handle(loop: Loop, close: bool)
    | QueueErase(loop: Loop)
    | TakeQueue(loop: Loop)
    | RunTask(loop: Loop)
    | Insert(loop: Loop)
    | DrainDone(loop: Loop)

  /** `subLoops` sub-loops, started and waiting. */
  function Start(subLoops: nat): State {
    State(seq(subLoops + 1, i => LoopState(Waiting, [], map[])), map[], [], {})
  }

  /** Round robin over the sub-loops; without any, the main loop itself. */
  function Target(s: State): (l: Loop)
    requires |s.loops| > 0
    ensures l < |s.loops|
  {
    if |s.loops| == 1 then MAIN else 1 + ThreadPool.PickOf(|s.conns|, |s.loops| - 1)
  }

  function WithStatus(conns: seq<Connection>, id: Id, status: Status): (r: seq<Connection>)
    ensures |r| == |conns|
  {
    if id < |conns| then conns[id := conns[id].(status := status)] else conns
  }

  /** Replacing or erasing a table entry destroys the connection it owned. */
  function Evict(conns: seq<Connection>, registry: map<int, Id>, fd: int): (r: seq<Connection>)
    ensures |r| == |conns|
  {
    if fd in registry then WithStatus(conns, registry[fd], Destroyed) else conns
  }

  predicate InTable(s: State, l: Loop, id: Id) {
    l < |s.loops| && id < |s.conns| && s.conns[id].fd in s.loops[l].table && s.loops[l].table[s.conns[id].fd] == id
  }

  predicate Enabled(s: State, step: Step) {
    match step
    case Accept(fd) => |s.loops| > 0 && s.loops[MAIN].pc.Dispatching? && fd !in s.openFds
    case HandOff => |s.loops| > 0 && s.loops[MAIN].pc.HandingOff?
    case WaitReturn(l, batch) =>
      && l < |s.loops| && s.loops[l].pc == Waiting && |batch| <= Reactor.MAX_EVENTS
      && (forall i :: 0 <= i < |batch| ==> InTable(s, l, batch[i]))
      && (forall i, j :: 0 <= i < j < |batch| ==> batch[i] != batch[j])
    case Handle(l, _) =>
      l < |s.loops| && s.loops[l].pc.Dispatching? && s.loops[l].pc.batch != [] && s.loops[l].pc.batch[0] < |s.conns|
    case QueueErase(l) => l < |s.loops| && s.loops[l].pc.Removing?
    case TakeQueue(l) => l < |s.loops| && s.loops[l].pc == Dispatching([])
    case RunTask(l) => l < |s.loops| && s.loops[l].pc.Draining? && s.loops[l].pc.local != []
    case Insert(l) => l < |s.loops| && s.loops[l].pc.Inserting? && s.loops[l].pc.id < |s.conns|
    case DrainDone(l) => l < |s.loops| && s.loops[l].pc == Draining([])
  }

  function Apply(s: State, step: Step): State
    requires Enabled(s, step)
  {
    match step
    case Accept(fd) =>
      s.(loops := s.loops[MAIN := s.loops[MAIN].(pc := HandingOff(fd, s.loops[MAIN].pc.batch))],
         openFds := s.openFds + {fd})
    case HandOff => AfterHandOff(s)
    case WaitReturn(l, batch) => s.(loops := s.loops[l := s.loops[l].(pc := Dispatching(batch))])
    case Handle(l, close) => AfterHandle(s, l, close)
    case QueueErase(l) =>
      var pc := s.loops[l].pc;
      s.(loops := s.loops[l := s.loops[l].(pc := Dispatching(pc.batch), pending := s.loops[l].pending + [Erase(pc.fd)])])
    case TakeQueue(l) => s.(loops := s.loops[l := s.loops[l].(pc := Draining(s.loops[l].pending), pending := [])])
    case RunTask(l) => AfterTask(s, l)
    case Insert(l) => AfterInsert(s, l)
    case DrainDone(l) => s.(loops := s.loops[l := s.loops[l].(pc := Waiting)])
  }

  /** With sub-loops, a functor is queued; without, the main loop creates the connection on the spot. */
  function AfterHandOff(s: State): State
    requires Enabled(s, HandOff)
  {
    var id, main := |s.conns|, s.loops[MAIN];
    var fd, l := main.pc.fd, Target(s);
    var loops := s.loops[MAIN := main.(pc := Dispatching(main.pc.batch))];
    if l == MAIN then
      State(loops[MAIN := loops[MAIN].(table := main.table[fd := id])],
            s.registry[fd := id],
            Evict(s.conns, s.registry, fd) + [Connection(fd, l, Open, 0)],
            s.openFds)
    else
      State(loops[l := loops[l].(pending := loops[l].pending + [Create(fd, id)])],
            s.registry,
            s.conns + [Connection(fd, l, Queued, 0)],
            s.openFds)
  }

  /**
   One event of the batch.  When its callback comes to `removeConnection`, the channel leaves the epoll
   table and the descriptor is closed; from then on accept may return it, while the erase functor is
   yet to be queued.
   */
  function AfterHandle(s: State, l: Loop, close: bool): State
    requires Enabled(s, Handle(l, close))
  {
    var ls := s.loops[l];
    var id := ls.pc.batch[0];
    var c := s.conns[id];
    var rest := ls.pc.batch[1..];
    if !close || c.status == Closing then s.(loops := s.loops[l := ls.(pc := Dispatching(rest))])
    else s.(loops := s.loops[l := ls.(pc := Removing(c.fd, rest), table := ls.table - {c.fd})],
            conns := s.conns[id := c.(status := Closing, closes := c.closes + 1)],
            openFds := s.openFds - {c.fd})
  }

  function AfterTask(s: State, l: Loop): State
    requires Enabled(s, RunTask(l))
  {
    var ls := s.loops[l];
    var rest := ls.pc.local[1..];
    match ls.pc.local[0]
    case Create(fd, id) =>
      s.(loops := s.loops[l := ls.(pc := Inserting(id, rest), table := ls.table[fd := id])],
         conns := WithStatus(s.conns, id, Creating))
    case Erase(fd) =>
      State(s.loops[l := ls.(pc := Draining(rest))], s.registry - {fd}, Evict(s.conns, s.registry, fd), s.openFds)
  }

  function AfterInsert(s: State, l: Loop): State
    requires Enabled(s, Insert(l))
  {
    var ls := s.loops[l];
    var id := ls.pc.id;
    var fd := s.conns[id].fd;
    State(s.loops[l := ls.(pc := Draining(ls.pc.local))],
          s.registry[fd := id],
          WithStatus(Evict(s.conns, s.registry, fd), id, Open),
          s.openFds)
  }

  // ---------------------------------------------------------------- invariant

  function Local(pc: Pc): seq<Task> {
    match pc
    case Draining(local) => local
    case Inserting(_, local) => local
    case _ => []
  }

  /** The connections whose events a loop still has to handle. */
  function Batch(pc: Pc): seq<Id> {
    match pc
    case Dispatching(batch) => batch
    case HandingOff(_, batch) => batch
    case Removing(_, batch) => batch
    case _ => []
  }

  /** The functors a loop still has to run, in order. */
  function Tasks(ls: LoopState): seq<Task> {
    Local(ls.pc) + ls.pending
  }

  predicate Live(status: Status) {
    status == Queued || status == Creating || status == Open
  }

  ghost predicate TableOk(s: State, l: Loop)
    requires l < |s.loops|
  {
    forall fd :: fd in s.loops[l].table ==>
      var id := s.loops[l].table[fd];
      && id < |s.conns| && s.conns[id].fd == fd && s.conns[id].loop == l
      && (s.conns[id].status == Open || s.conns[id].status == Creating)
  }

  ghost predicate RegistryOk(s: State) {
    forall fd :: fd in s.registry ==>
      var id := s.registry[fd];
      && id < |s.conns| && s.conns[id].fd == fd
      && (s.conns[id].status == Open || s.conns[id].status == Closing)
  }

  ghost predicate TaskOk(s: State, l: Loop, t: Task) {
    match t
    case Create(fd, id) =>
      id < |s.conns| && s.conns[id].status == Queued && s.conns[id].fd == fd && s.conns[id].loop == l
    case Erase(fd) =>
      && fd in s.registry && s.registry[fd] < |s.conns|
      && s.conns[s.registry[fd]].status == Closing && s.conns[s.registry[fd]].loop == l
  }

  ghost predicate TasksOk(s: State, l: Loop)
    requires l < |s.loops|
  {
    var tasks := Tasks(s.loops[l]);
    && (forall i :: 0 <= i < |tasks| ==> TaskOk(s, l, tasks[i]))
    && (forall i, j :: 0 <= i < j < |tasks| ==> tasks[i] != tasks[j])
  }

  ghost predicate BatchOk(s: State, l: Loop)
    requires l < |s.loops|
  {
    var batch := Batch(s.loops[l].pc);
    && (forall i :: 0 <= i < |batch| ==> InTable(s, l, batch[i]) && s.conns[batch[i]].status == Open)
    && (forall i, j :: 0 <= i < j < |batch| ==> batch[i] != batch[j])
  }

  /** No connection that is to be created or served has this descriptor. */
  ghost predicate NotLive(s: State, fd: int) {
    forall id :: 0 <= id < |s.conns| && Live(s.conns[id].status) ==> s.conns[id].fd != fd
  }

  ghost predicate PcOk(s: State, l: Loop)
    requires l < |s.loops|
  {
    match s.loops[l].pc
    case HandingOff(fd, _) => l == MAIN && fd in s.openFds && NotLive(s, fd)
    case Removing(fd, _) => TaskOk(s, l, Erase(fd)) && Erase(fd) !in Tasks(s.loops[l])
    case Inserting(id, _) =>
      id < |s.conns| && s.conns[id].status == Creating && s.conns[id].loop == l
    case _ => true
  }

  predicate InBatch(pc: Pc) {
    pc.Dispatching? || pc.HandingOff? || pc.Removing?
  }

  /** Erase functors are queued during dispatch only, and gone after the drain that follows. */
  ghost predicate EraseOk(s: State, l: Loop)
    requires l < |s.loops|
  {
    !InBatch(s.loops[l].pc) ==> forall i :: 0 <= i < |s.loops[l].pending| ==> s.loops[l].pending[i].Create?
  }

  /** The erase functor for a closed descriptor is queued, or about to be queued. */
  predicate EraseDue(ls: LoopState, fd: int) {
    Erase(fd) in Tasks(ls) || (ls.pc.Removing? && ls.pc.fd == fd)
  }

  /** Where a connection can be found, by its status. */
  ghost predicate PlaceOk(s: State, id: Id)
    requires id < |s.conns|
  {
    var c := s.conns[id];
    && c.loop < |s.loops|
    && c.closes == (if Live(c.status) then 0 else 1)
    && (Live(c.status) ==> c.fd in s.openFds)
    && match c.status
       case Queued => Create(c.fd, id) in Tasks(s.loops[c.loop])
       case Creating => s.loops[c.loop].pc.Inserting? && s.loops[c.loop].pc.id == id && InTable(s, c.loop, id)
       case Open => InTable(s, c.loop, id) && c.fd in s.registry && s.registry[c.fd] == id
       case Closing => EraseDue(s.loops[c.loop], c.fd) && c.fd in s.registry && s.registry[c.fd] == id
       case Destroyed => true
  }

  ghost predicate FdsDistinct(s: State) {
    forall i, j :: 0 <= i < j < |s.conns| && Live(s.conns[i].status) && Live(s.conns[j].status) ==>
      s.conns[i].fd != s.conns[j].fd
  }

  ghost predicate LoopOk(s: State, l: Loop)
    requires l < |s.loops|
  {
    TableOk(s, l) && TasksOk(s, l) && BatchOk(s, l) && PcOk(s, l) && EraseOk(s, l)
  }

  ghost predicate Inv(s: State) {
    && |s.loops| > 0
    && RegistryOk(s)
    && FdsDistinct(s)
    && (forall l :: 0 <= l < |s.loops| ==> LoopOk(s, l))
    && (forall id :: 0 <= id < |s.conns| ==> PlaceOk(s, id))
  }

  /** The hypothesis: an entry put into the shared table finds its slot empty. */
  predicate SlotFree(s: State, step: Step)
    requires Enabled(s, step)
  {
    match step
    case HandOff => Target(s) == MAIN ==> s.loops[MAIN].pc.fd !in s.registry
    case Insert(l) => s.conns[s.loops[l].pc.id].fd !in s.registry
    case _ => true
  }

  lemma {:induction false} StartOk(subLoops: nat)
    ensures Inv(Start(subLoops))
  {
  }

  /** The steps that leave queues and entries alone. */
  predicate IsQuiet(step: Step) {
    step.Accept? || step.WaitReturn? || step.Handle? || step.TakeQueue? || step.DrainDone?
  }

  lemma {:induction false} QuietStepKeepsQueues(s: State, step: Step)
    requires Enabled(s, step) && IsQuiet(step)
    ensures var s' := Apply(s, step);
            && s'.registry == s.registry && |s'.loops| == |s.loops| && |s'.conns| == |s.conns|
            && forall m :: 0 <= m < |s.loops| ==> Tasks(s'.loops[m]) == Tasks(s.loops[m])
  {
    var l := if step.Accept? then MAIN else step.loop;
    var ls, ls' := s.loops[l], Apply(s, step).loops[l];
    assert Local(ls'.pc) + ls'.pending == Local(ls.pc) + ls.pending;
  }

  // ---------------------------------------------------------------- each step keeps it

  /** A loop goes on to another point of its turn, with the same functors to run and the same table. */
  lemma {:induction false} GoesOn(s: State, l: Loop, next: LoopState)
    requires Inv(s) && l < |s.loops|
    requires next.table == s.loops[l].table && Tasks(next) == Tasks(s.loops[l])
    requires next.pc.Waiting? || next.pc.Dispatching? || next.pc.Draining?
    requires s.loops[l].pc.Waiting? || s.loops[l].pc.Dispatching? || s.loops[l].pc.Draining?
    requires BatchOk(s.(loops := s.loops[l := next]), l) && EraseOk(s.(loops := s.loops[l := next]), l)
    ensures Inv(s.(loops := s.loops[l := next]))
  {
    var s' := s.(loops := s.loops[l := next]);
    forall m | 0 <= m < |s'.loops| ensures LoopOk(s', m) {
      assert LoopOk(s, m);
    }
    forall id | 0 <= id < |s'.conns| ensures PlaceOk(s', id) {
      GoesOnInPlace(s, l, next, id);
    }
  }

  lemma {:induction false} GoesOnInPlace(s: State, l: Loop, next: LoopState, id: Id)
    requires l < |s.loops| && id < |s.conns| && PlaceOk(s, id)
    requires next.table == s.loops[l].table && Tasks(next) == Tasks(s.loops[l])
    requires !s.loops[l].pc.Inserting? && !s.loops[l].pc.Removing?
    ensures PlaceOk(s.(loops := s.loops[l := next]), id)
  {
  }

  lemma {:induction false} WaitReturnKeeps(s: State, l: Loop, batch: seq<Id>)
    requires Inv(s) && Enabled(s, WaitReturn(l, batch))
    ensures Inv(Apply(s, WaitReturn(l, batch)))
  {
    forall i | 0 <= i < |batch| ensures s.conns[batch[i]].status == Open {
      assert InTable(s, l, batch[i]) && LoopOk(s, l) && PlaceOk(s, batch[i]);
    }
    GoesOn(s, l, s.loops[l].(pc := Dispatching(batch)));
  }

  lemma {:induction false} QuietHandleKeeps(s: State, l: Loop, close: bool)
    requires Inv(s) && Enabled(s, Handle(l, close))
    requires !close || s.conns[s.loops[l].pc.batch[0]].status == Closing
    ensures Inv(Apply(s, Handle(l, close)))
  {
    assert LoopOk(s, l);
    GoesOn(s, l, s.loops[l].(pc := Dispatching(s.loops[l].pc.batch[1..])));
  }

  lemma {:induction false} LiveFdsDiffer(s: State, id: Id, id': Id)
    requires Inv(s) && id < |s.conns| && id' < |s.conns| && id != id'
    requires Live(s.conns[id].status) && Live(s.conns[id'].status)
    ensures s.conns[id].fd != s.conns[id'].fd
  {
  }

  /** The connection at the head of a batch is open and nothing says it should be erased. */
  lemma {:induction false} HeadIsOpen(s: State, l: Loop)
    requires Inv(s) && Enabled(s, Handle(l, true))
    ensures var id := s.loops[l].pc.batch[0]; var c := s.conns[id];
            && InTable(s, l, id) && c.status == Open && c.loop == l && c.closes == 0
            && c.fd in s.registry && s.registry[c.fd] == id
            && forall m :: 0 <= m < |s.loops| ==> Erase(c.fd) !in Tasks(s.loops[m])
  {
    assert LoopOk(s, l);
    var id := s.loops[l].pc.batch[0];
    assert PlaceOk(s, id);
    forall m | 0 <= m < |s.loops| ensures Erase(s.conns[id].fd) !in Tasks(s.loops[m]) {
      assert LoopOk(s, m);
    }
  }

  lemma {:induction false} CloseKeepsLoop(s: State, l: Loop)
    requires Inv(s) && Enabled(s, Handle(l, true))
    ensures LoopOk(Apply(s, Handle(l, true)), l)
  {
    var s' := Apply(s, Handle(l, true));
    HeadIsOpen(s, l);
    assert LoopOk(s, l);
    assert Tasks(s'.loops[l]) == Tasks(s.loops[l]);
    forall i | 0 <= i < |Tasks(s.loops[l])| ensures TaskOk(s', l, Tasks(s.loops[l])[i]) {
      assert TaskOk(s, l, Tasks(s.loops[l])[i]);
    }
  }

  lemma {:induction false} CloseKeepsOtherLoop(s: State, l: Loop, m: Loop)
    requires Inv(s) && Enabled(s, Handle(l, true)) && m < |s.loops| && m != l
    ensures LoopOk(Apply(s, Handle(l, true)), m)
  {
    var s' := Apply(s, Handle(l, true));
    HeadIsOpen(s, l);
    assert LoopOk(s, m);
    forall i | 0 <= i < |Tasks(s.loops[m])| ensures TaskOk(s', m, Tasks(s.loops[m])[i]) {
      assert TaskOk(s, m, Tasks(s.loops[m])[i]);
    }
  }

  lemma {:induction false} CloseKeepsPlace(s: State, l: Loop, id': Id)
    requires Inv(s) && Enabled(s, Handle(l, true)) && id' < |s.conns|
    ensures PlaceOk(Apply(s, Handle(l, true)), id')
  {
    var s' := Apply(s, Handle(l, true));
    HeadIsOpen(s, l);
    var id := s.loops[l].pc.batch[0];
    assert Tasks(s'.loops[l]) == Tasks(s.loops[l]);
    assert PlaceOk(s, id');
    if id' != id && Live(s.conns[id'].status) {
      LiveFdsDiffer(s, id, id');
    }
  }

  lemma {:induction false} CloseKeeps(s: State, l: Loop)
    requires Inv(s) && Enabled(s, Handle(l, true))
    ensures Inv(Apply(s, Handle(l, true)))
  {
    var s' := Apply(s, Handle(l, true));
    HeadIsOpen(s, l);
    CloseKeepsLoop(s, l);
    forall m | 0 <= m < |s'.loops| && m != l ensures LoopOk(s', m) {
      CloseKeepsOtherLoop(s, l, m);
    }
    forall id | 0 <= id < |s'.conns| ensures PlaceOk(s', id) {
      CloseKeepsPlace(s, l, id);
    }
  }

  /** One functor more at the end of a loop's queue. */
  lemma {:induction false} OneMoreTask(s: State, s': State, l: Loop, t: Task)
    requires l < |s.loops| == |s'.loops| && TasksOk(s, l)
    requires Tasks(s'.loops[l]) == Tasks(s.loops[l]) + [t]
    requires t !in Tasks(s.loops[l]) && TaskOk(s', l, t)
    requires forall u :: TaskOk(s, l, u) ==> TaskOk(s', l, u)
    ensures TasksOk(s', l)
  {
    var tasks := Tasks(s.loops[l]);
    forall i | 0 <= i < |tasks| ensures TaskOk(s', l, tasks[i]) && tasks[i] != t {
      assert TaskOk(s, l, tasks[i]);
    }
  }

  lemma {:induction false} QueueEraseKeepsLoop(s: State, l: Loop, m: Loop)
    requires Inv(s) && Enabled(s, QueueErase(l)) && m < |s.loops|
    ensures LoopOk(Apply(s, QueueErase(l)), m)
  {
    var s' := Apply(s, QueueErase(l));
    var erase := Erase(s.loops[l].pc.fd);
    assert LoopOk(s, m);
    forall u | TaskOk(s, m, u) ensures TaskOk(s', m, u) {}
    if m == l {
      assert Tasks(s'.loops[l]) == Tasks(s.loops[l]) + [erase];
      OneMoreTask(s, s', l, erase);
    }
  }

  lemma {:induction false} QueueEraseKeeps(s: State, l: Loop)
    requires Inv(s) && Enabled(s, QueueErase(l))
    ensures Inv(Apply(s, QueueErase(l)))
  {
    var s' := Apply(s, QueueErase(l));
    var erase := Erase(s.loops[l].pc.fd);
    assert Tasks(s'.loops[l]) == Tasks(s.loops[l]) + [erase];
    forall m | 0 <= m < |s'.loops| ensures LoopOk(s', m) {
      QueueEraseKeepsLoop(s, l, m);
    }
    forall id | 0 <= id < |s'.conns| ensures PlaceOk(s', id) {
      assert PlaceOk(s, id);
      assert erase in Tasks(s'.loops[l]);
    }
  }

  lemma {:induction false} TakeQueueKeeps(s: State, l: Loop)
    requires Inv(s) && Enabled(s, TakeQueue(l))
    ensures Inv(Apply(s, TakeQueue(l)))
  {
    var pending := s.loops[l].pending;
    assert pending + [] == pending && [] + pending == pending;
    GoesOn(s, l, s.loops[l].(pc := Draining(pending), pending := []));
  }

  lemma {:induction false} DrainDoneKeeps(s: State, l: Loop)
    requires Inv(s) && Enabled(s, DrainDone(l))
    ensures Inv(Apply(s, DrainDone(l)))
  {
    assert LoopOk(s, l);
    GoesOn(s, l, s.loops[l].(pc := Waiting));
  }

  lemma {:induction false} FrontTaken<T>(local: seq<T>, pending: seq<T>)
    requires local != []
    ensures local + pending == [local[0]] + (local[1..] + pending)
    ensures forall i :: 0 <= i < |local[1..] + pending| ==> (local[1..] + pending)[i] == (local + pending)[i + 1]
  {
    assert local == [local[0]] + local[1..];
  }

  lemma {:induction false} FrontIsNotInRest<T>(x: T, rest: seq<T>)
    requires forall i, j :: 0 <= i < j < |[x] + rest| ==> ([x] + rest)[i] != ([x] + rest)[j]
    ensures x !in rest
  {
    forall i | 0 <= i < |rest| ensures rest[i] != x {
      assert ([x] + rest)[0] == x && ([x] + rest)[i + 1] == rest[i];
    }
  }

  /** Running a task takes it off the front and leaves the others. */
  lemma {:induction false} TaskRemoved(s: State, l: Loop)
    requires Inv(s) && Enabled(s, RunTask(l))
    ensures var t, t' := Tasks(s.loops[l]), Tasks(Apply(s, RunTask(l)).loops[l]);
            && t == [s.loops[l].pc.local[0]] + t'
            && TaskOk(s, l, s.loops[l].pc.local[0])
            && s.loops[l].pc.local[0] !in t'
            && (forall i :: 0 <= i < |t'| ==> t'[i] == t[i + 1])
  {
    var local, pending := s.loops[l].pc.local, s.loops[l].pending;
    FrontTaken(local, pending);
    assert LoopOk(s, l);
    assert Tasks(s.loops[l]) == local + pending;
    assert TaskOk(s, l, (local + pending)[0]);
    FrontIsNotInRest(local[0], local[1..] + pending);
  }

  /** A functor touches no other functor. */
  lemma {:induction false} RunTaskKeepsTask(s: State, l: Loop, m: Loop, t: Task)
    requires Inv(s) && Enabled(s, RunTask(l)) && m < |s.loops|
    requires TaskOk(s, l, s.loops[l].pc.local[0]) && TaskOk(s, m, t)
    requires m == l ==> t != s.loops[l].pc.local[0]
    ensures TaskOk(Apply(s, RunTask(l)), m, t)
  {
  }

  lemma {:induction false} RunTaskKeepsTasks(s: State, l: Loop, m: Loop)
    requires Inv(s) && Enabled(s, RunTask(l)) && m < |s.loops|
    ensures TasksOk(Apply(s, RunTask(l)), m)
  {
    var s' := Apply(s, RunTask(l));
    TaskRemoved(s, l);
    assert LoopOk(s, m);
    var t, t' := Tasks(s.loops[m]), Tasks(s'.loops[m]);
    assert m != l ==> t' == t;
    forall i | 0 <= i < |t'| ensures TaskOk(s', m, t'[i]) {
      assert t'[i] == t[if m == l then i + 1 else i];
      assert t'[i] in t';
      RunTaskKeepsTask(s, l, m, t'[i]);
    }
  }

  lemma {:induction false} RunTaskKeepsTable(s: State, l: Loop, m: Loop)
    requires Inv(s) && Enabled(s, RunTask(l)) && m < |s.loops|
    requires TaskOk(s, l, s.loops[l].pc.local[0])
    ensures TableOk(Apply(s, RunTask(l)), m)
  {
    assert LoopOk(s, m);
  }

  lemma {:induction false} RunTaskKeepsBatch(s: State, l: Loop, m: Loop)
    requires Inv(s) && Enabled(s, RunTask(l)) && m < |s.loops|
    requires TaskOk(s, l, s.loops[l].pc.local[0])
    ensures BatchOk(Apply(s, RunTask(l)), m)
  {
    assert LoopOk(s, m);
  }

  lemma {:induction false} RunTaskKeepsLoop(s: State, l: Loop, m: Loop)
    requires Inv(s) && Enabled(s, RunTask(l)) && m < |s.loops|
    ensures LoopOk(Apply(s, RunTask(l)), m)
  {
    TaskRemoved(s, l);
    assert LoopOk(s, m);
    RunTaskKeepsTasks(s, l, m);
    RunTaskKeepsTable(s, l, m);
    RunTaskKeepsBatch(s, l, m);
    if s.loops[m].pc.Removing? {
      RunTaskKeepsTask(s, l, m, Erase(s.loops[m].pc.fd));
    }
  }

  lemma {:induction false} CreateKeepsPlace(s: State, l: Loop, id': Id)
    requires Inv(s) && Enabled(s, RunTask(l)) && s.loops[l].pc.local[0].Create? && id' < |s.conns|
    ensures PlaceOk(Apply(s, RunTask(l)), id')
  {
    var s' := Apply(s, RunTask(l));
    TaskRemoved(s, l);
    var id := s.loops[l].pc.local[0].id;
    assert PlaceOk(s, id') && PlaceOk(s, id);
    if id' != id && Live(s.conns[id'].status) {
      LiveFdsDiffer(s, id, id');
    }
  }

  lemma {:induction false} EraseKeepsPlace(s: State, l: Loop, id': Id)
    requires Inv(s) && Enabled(s, RunTask(l)) && s.loops[l].pc.local[0].Erase? && id' < |s.conns|
    ensures PlaceOk(Apply(s, RunTask(l)), id')
  {
    TaskRemoved(s, l);
    assert PlaceOk(s, id');
  }

  lemma {:induction false} RunTaskKeeps(s: State, l: Loop)
    requires Inv(s) && Enabled(s, RunTask(l))
    ensures Inv(Apply(s, RunTask(l)))
  {
    var s' := Apply(s, RunTask(l));
    TaskRemoved(s, l);
    forall m | 0 <= m < |s'.loops| ensures LoopOk(s', m) {
      RunTaskKeepsLoop(s, l, m);
    }
    forall id | 0 <= id < |s'.conns| ensures PlaceOk(s', id) {
      if s.loops[l].pc.local[0].Create? { CreateKeepsPlace(s, l, id); } else { EraseKeepsPlace(s, l, id); }
    }
  }

  lemma {:induction false} InsertKeepsTask(s: State, l: Loop, m: Loop, t: Task)
    requires Inv(s) && Enabled(s, Insert(l)) && SlotFree(s, Insert(l)) && m < |s.loops|
    requires TaskOk(s, m, t)
    ensures TaskOk(Apply(s, Insert(l)), m, t)
  {
    assert LoopOk(s, l);
  }

  lemma {:induction false} InsertKeepsTasks(s: State, l: Loop, m: Loop)
    requires Inv(s) && Enabled(s, Insert(l)) && SlotFree(s, Insert(l)) && m < |s.loops|
    ensures TasksOk(Apply(s, Insert(l)), m)
  {
    var s' := Apply(s, Insert(l));
    assert LoopOk(s, m);
    assert Tasks(s'.loops[m]) == Tasks(s.loops[m]);
    forall i | 0 <= i < |Tasks(s.loops[m])| ensures TaskOk(s', m, Tasks(s.loops[m])[i]) {
      InsertKeepsTask(s, l, m, Tasks(s.loops[m])[i]);
    }
  }

  lemma {:induction false} InsertKeepsLoop(s: State, l: Loop, m: Loop)
    requires Inv(s) && Enabled(s, Insert(l)) && SlotFree(s, Insert(l)) && m < |s.loops|
    ensures LoopOk(Apply(s, Insert(l)), m)
  {
    InsertKeepsTasks(s, l, m);
    assert LoopOk(s, m) && LoopOk(s, l);
    if s.loops[m].pc.Removing? {
      assert Tasks(Apply(s, Insert(l)).loops[m]) == Tasks(s.loops[m]);
      InsertKeepsTask(s, l, m, Erase(s.loops[m].pc.fd));
    }
  }

  lemma {:induction false} InsertKeeps(s: State, l: Loop)
    requires Inv(s) && Enabled(s, Insert(l)) && SlotFree(s, Insert(l))
    ensures Inv(Apply(s, Insert(l)))
  {
    var s' := Apply(s, Insert(l));
    assert LoopOk(s, l);
    assert Tasks(s'.loops[l]) == Tasks(s.loops[l]);
    forall m | 0 <= m < |s'.loops| ensures LoopOk(s', m) {
      InsertKeepsLoop(s, l, m);
    }
    forall id | 0 <= id < |s'.conns| ensures PlaceOk(s', id) {
      assert PlaceOk(s, id) && PlaceOk(s, s.loops[l].pc.id);
    }
  }

  lemma {:induction false} FreeIsNotLive(s: State, fd: int)
    requires Inv(s) && fd !in s.openFds
    ensures NotLive(s, fd)
  {
    forall id | 0 <= id < |s.conns| && Live(s.conns[id].status) ensures s.conns[id].fd != fd {
      assert PlaceOk(s, id);
    }
  }

  lemma {:induction false} AcceptKeeps(s: State, fd: int)
    requires Inv(s) && Enabled(s, Accept(fd))
    ensures Inv(Apply(s, Accept(fd)))
  {
    var s' := Apply(s, Accept(fd));
    FreeIsNotLive(s, fd);
    assert Tasks(s'.loops[MAIN]) == Tasks(s.loops[MAIN]);
    forall m | 0 <= m < |s'.loops| ensures LoopOk(s', m) {
      assert LoopOk(s, m);
    }
    forall id | 0 <= id < |s'.conns| ensures PlaceOk(s', id) {
      assert PlaceOk(s, id);
    }
  }

  lemma {:induction false} HandOffKeepsTasks(s: State, m: Loop)
    requires Inv(s) && Enabled(s, HandOff) && SlotFree(s, HandOff) && m < |s.loops|
    ensures TasksOk(Apply(s, HandOff), m)
  {
    var s' := Apply(s, HandOff);
    var fd, l := s.loops[MAIN].pc.fd, Target(s);
    assert LoopOk(s, m);
    forall t | TaskOk(s, m, t) ensures TaskOk(s', m, t) && t != Create(fd, |s.conns|) {}
    if m == l && l != MAIN {
      assert Tasks(s'.loops[m]) == Tasks(s.loops[m]) + [Create(fd, |s.conns|)];
      OneMoreTask(s, s', m, Create(fd, |s.conns|));
    } else {
      assert Tasks(s'.loops[m]) == Tasks(s.loops[m]);
    }
  }

  lemma {:induction false} HandOffKeepsLoop(s: State, m: Loop)
    requires Inv(s) && Enabled(s, HandOff) && SlotFree(s, HandOff) && m < |s.loops|
    ensures LoopOk(Apply(s, HandOff), m)
  {
    HandOffKeepsTasks(s, m);
    assert LoopOk(s, m) && LoopOk(s, MAIN);
    if m != MAIN && s.loops[m].pc.Removing? {
      assert Erase(s.loops[m].pc.fd) !in Tasks(s.loops[m]) + [Create(s.loops[MAIN].pc.fd, |s.conns|)];
    }
  }

  lemma {:induction false} HandOffKeepsPlace(s: State, id: Id)
    requires Inv(s) && Enabled(s, HandOff) && SlotFree(s, HandOff) && id < |s.conns| + 1
    ensures PlaceOk(Apply(s, HandOff), id)
  {
    var s' := Apply(s, HandOff);
    var fd, l := s.loops[MAIN].pc.fd, Target(s);
    assert LoopOk(s, MAIN);
    if id < |s.conns| {
      assert PlaceOk(s, id);
    }
    if l != MAIN {
      assert Tasks(s'.loops[l]) == Tasks(s.loops[l]) + [Create(fd, |s.conns|)];
      assert Create(fd, |s.conns|) in Tasks(s'.loops[l]);
    }
    assert MAIN != l ==> Tasks(s'.loops[MAIN]) == Tasks(s.loops[MAIN]);
  }

  lemma {:induction false} HandOffKeeps(s: State)
    requires Inv(s) && Enabled(s, HandOff) && SlotFree(s, HandOff)
    ensures Inv(Apply(s, HandOff))
  {
    var s' := Apply(s, HandOff);
    assert LoopOk(s, MAIN);
    forall m | 0 <= m < |s'.loops| ensures LoopOk(s', m) {
      HandOffKeepsLoop(s, m);
    }
    forall id | 0 <= id < |s'.conns| ensures PlaceOk(s', id) {
      HandOffKeepsPlace(s, id);
    }
  }

  lemma {:induction false} StepKeeps(s: State, step: Step)
    requires Inv(s) && Enabled(s, step) && SlotFree(s, step)
    ensures Inv(Apply(s, step))
  {
    match step
    case Accept(fd) => AcceptKeeps(s, fd);
    case HandOff => HandOffKeeps(s);
    case WaitReturn(l, batch) => WaitReturnKeeps(s, l, batch);
    case Handle(l, close) =>
      if close && s.conns[s.loops[l].pc.batch[0]].status != Closing {
        CloseKeeps(s, l);
      } else {
        QuietHandleKeeps(s, l, close);
      }
    case QueueErase(l) => QueueEraseKeeps(s, l);
    case TakeQueue(l) => TakeQueueKeeps(s, l);
    case RunTask(l) => RunTaskKeeps(s, l);
    case Insert(l) => InsertKeeps(s, l);
    case DrainDone(l) => DrainDoneKeeps(s, l);
  }

  // ---------------------------------------------------------------- runs

  predicate IsRun(s: State, steps: seq<Step>)
    decreases |steps|
  {
    steps == [] || (Enabled(s, steps[0]) && IsRun(Apply(s, steps[0]), steps[1..]))
  }

  function After(s: State, steps: seq<Step>): State
    requires IsRun(s, steps)
    decreases |steps|
  {
    if steps == [] then s else After(Apply(s, steps[0]), steps[1..])
  }

  /** Every entry put into the shared table found its slot empty. */
  predicate SlotsFree(s: State, steps: seq<Step>)
    requires IsRun(s, steps)
    decreases |steps|
  {
    steps == [] || (SlotFree(s, steps[0]) && SlotsFree(Apply(s, steps[0]), steps[1..]))
  }

  lemma {:induction false} InvOverRun(s: State, steps: seq<Step>)
    requires Inv(s) && IsRun(s, steps) && SlotsFree(s, steps)
    ensures Inv(After(s, steps))
    decreases |steps|
  {
    if steps != [] {
      StepKeeps(s, steps[0]);
      InvOverRun(Apply(s, steps[0]), steps[1..]);
    }
  }

  // ---------------------------------------------------------------- safety

  /** What epoll or a batch can still lead to has not been destroyed, nor closed. */
  ghost predicate NothingDangles(s: State) {
    && (forall l, fd :: 0 <= l < |s.loops| && fd in s.loops[l].table ==>
          var id := s.loops[l].table[fd];
          id < |s.conns| && Live(s.conns[id].status))
    && (forall l, i :: 0 <= l < |s.loops| && 0 <= i < |Batch(s.loops[l].pc)| ==>
          var id := Batch(s.loops[l].pc)[i];
          id < |s.conns| && s.conns[id].status == Open && s.conns[id].loop == l)
  }

  ghost predicate ClosedAtMostOnce(s: State) {
    forall id :: 0 <= id < |s.conns| ==> s.conns[id].closes == if Live(s.conns[id].status) then 0 else 1
  }

  /** A waiting loop has no connection whose erasure is outstanding. */
  ghost predicate WaitingLoopsAreClean(s: State) {
    forall id :: 0 <= id < |s.conns| && s.conns[id].loop < |s.loops| && s.loops[s.conns[id].loop].pc == Waiting ==>
      s.conns[id].status != Closing
  }

  /**
   Each accepted descriptor is in one place: in the hands of the main loop, queued for creation on one
   loop, being created there, or created.
   */
  ghost predicate HandedOver(s: State) {
    && (forall l :: 0 <= l < |s.loops| && s.loops[l].pc.HandingOff? ==> l == MAIN && NotLive(s, s.loops[l].pc.fd))
    && forall id :: 0 <= id < |s.conns| ==>
      var c := s.conns[id];
      && c.loop < |s.loops|
      && (c.status == Queued <==> Create(c.fd, id) in Tasks(s.loops[c.loop]))
      && (c.status == Creating <==> s.loops[c.loop].pc.Inserting? && s.loops[c.loop].pc.id == id)
      && forall l :: 0 <= l < |s.loops| && l != c.loop ==> Create(c.fd, id) !in Tasks(s.loops[l])
  }

  ghost predicate Safe(s: State) {
    NothingDangles(s) && ClosedAtMostOnce(s) && WaitingLoopsAreClean(s) && HandedOver(s)
  }

  lemma {:induction false} NoEraseWhileWaiting(s: State, l: Loop, fd: int)
    requires Inv(s) && l < |s.loops| && s.loops[l].pc == Waiting
    ensures Erase(fd) !in Tasks(s.loops[l])
  {
    var pending := s.loops[l].pending;
    assert EraseOk(s, l) by { assert LoopOk(s, l); }
    assert Tasks(s.loops[l]) == pending;
    forall i | 0 <= i < |pending| ensures pending[i] != Erase(fd) {
      assert pending[i].Create?;
    }
  }

  lemma {:induction false} InvIsSafe(s: State)
    requires Inv(s)
    ensures Safe(s)
  {
    forall l, fd | 0 <= l < |s.loops| && fd in s.loops[l].table
      ensures var id := s.loops[l].table[fd]; id < |s.conns| && Live(s.conns[id].status)
    {
      assert LoopOk(s, l);
    }
    forall l, i | 0 <= l < |s.loops| && 0 <= i < |Batch(s.loops[l].pc)|
      ensures var id := Batch(s.loops[l].pc)[i]; id < |s.conns| && s.conns[id].status == Open && s.conns[id].loop == l
    {
      assert LoopOk(s, l) && InTable(s, l, Batch(s.loops[l].pc)[i]);
    }
    forall id | 0 <= id < |s.conns| && s.conns[id].loop < |s.loops| && s.loops[s.conns[id].loop].pc == Waiting
      ensures s.conns[id].status != Closing
    {
      assert PlaceOk(s, id);
      NoEraseWhileWaiting(s, s.conns[id].loop, s.conns[id].fd);
    }
    forall id | 0 <= id < |s.conns|
      ensures s.conns[id].closes == if Live(s.conns[id].status) then 0 else 1
    {
      assert PlaceOk(s, id);
    }
    InvHandsOver(s);
  }

  lemma {:induction false} InvHandsOver(s: State)
    requires Inv(s)
    ensures HandedOver(s)
  {
    forall l | 0 <= l < |s.loops| && s.loops[l].pc.HandingOff? ensures l == MAIN && NotLive(s, s.loops[l].pc.fd) {
      assert LoopOk(s, l);
    }
    forall id, l | 0 <= id < |s.conns| && 0 <= l < |s.loops| && Create(s.conns[id].fd, id) in Tasks(s.loops[l])
      ensures s.conns[id].status == Queued && s.conns[id].loop == l
    {
      assert LoopOk(s, l);
    }
    forall id | 0 <= id < |s.conns|
      ensures s.conns[id].loop < |s.loops|
      ensures var c := s.conns[id];
              && (c.status == Queued ==> Create(c.fd, id) in Tasks(s.loops[c.loop]))
              && (c.status == Creating <==> s.loops[c.loop].pc.Inserting? && s.loops[c.loop].pc.id == id)
    {
      assert PlaceOk(s, id) && LoopOk(s, s.conns[id].loop);
    }
  }

  /** A connection is destroyed only by its own loop, by the erase functor it queued when it closed. */
  ghost predicate OwnErase(s: State, step: Step)
    requires Enabled(s, step)
  {
    forall id :: 0 <= id < |s.conns| && s.conns[id].status != Destroyed && Apply(s, step).conns[id].status == Destroyed ==>
      && step == RunTask(s.conns[id].loop)
      && s.loops[s.conns[id].loop].pc.local[0] == Erase(s.conns[id].fd)
      && s.conns[id].status == Closing
  }

  ghost predicate OwnErases(s: State, steps: seq<Step>)
    requires IsRun(s, steps)
    decreases |steps|
  {
    steps == [] || (OwnErase(s, steps[0]) && OwnErases(Apply(s, steps[0]), steps[1..]))
  }

  /** From a good state a step destroys only in order if and only if it finds its slot empty. */
  lemma {:induction false} OwnEraseIffSlotFree(s: State, step: Step)
    requires Inv(s) && Enabled(s, step)
    ensures OwnErase(s, step) <==> SlotFree(s, step)
  {
    match step
    case RunTask(l) =>
      assert LoopOk(s, l);
      TaskRemoved(s, l);
    case Insert(l) =>
      assert LoopOk(s, l);
      if !SlotFree(s, step) {
        var evicted := s.registry[s.conns[s.loops[l].pc.id].fd];
        assert s.conns[evicted].status != Destroyed && Apply(s, step).conns[evicted].status == Destroyed;
      }
    case HandOff =>
      if !SlotFree(s, step) {
        var evicted := s.registry[s.loops[MAIN].pc.fd];
        assert s.conns[evicted].status != Destroyed && Apply(s, step).conns[evicted].status == Destroyed;
      }
    case _ =>
  }

  /**
   Lifetime safety, exactly.  Over every interleaving, with any number of sub-loops: connections are
   destroyed only by their own loop's erase functor throughout the run, if and only if every entry put
   into the shared table found its slot empty.  In that case, wherever the run leads: nothing in an
   epoll table or a batch is closed or destroyed, each descriptor has been closed at most once, waiting
   loops have nothing to erase, and each accepted descriptor is in one place only.
   */
  lemma {:induction false} LifetimesAreSafe(s: State, steps: seq<Step>)
    requires Inv(s) && IsRun(s, steps)
    ensures OwnErases(s, steps) <==> SlotsFree(s, steps)
    ensures SlotsFree(s, steps) ==> Safe(After(s, steps))
    decreases |steps|
  {
    if steps == [] {
      InvIsSafe(s);
    } else {
      OwnEraseIffSlotFree(s, steps[0]);
      if SlotFree(s, steps[0]) {
        StepKeeps(s, steps[0]);
        LifetimesAreSafe(Apply(s, steps[0]), steps[1..]);
      }
    }
  }

  /** In particular from the start. */
  lemma {:induction false} ServerLifetimesAreSafe(subLoops: nat, steps: seq<Step>)
    requires IsRun(Start(subLoops), steps)
    ensures OwnErases(Start(subLoops), steps) <==> SlotsFree(Start(subLoops), steps)
    ensures SlotsFree(Start(subLoops), steps) ==> Safe(After(Start(subLoops), steps))
  {
    StartOk(subLoops);
    LifetimesAreSafe(Start(subLoops), steps);
  }

  // ---------------------------------------------------------------- one way through life

  function Rank(status: Status): nat {
    match status
    case Queued => 0
    case Creating => 1
    case Open => 2
    case Closing => 3
    case Destroyed => 4
  }

  /** No step takes a connection back, gives it another descriptor or moves it to another loop. */
  lemma {:induction false} LifeAdvances(s: State, step: Step, id: Id)
    requires Inv(s) && Enabled(s, step) && id < |s.conns|
    ensures id < |Apply(s, step).conns|
    ensures var c, c' := s.conns[id], Apply(s, step).conns[id];
            && c'.fd == c.fd && c'.loop == c.loop && Rank(c.status) <= Rank(c'.status)
            && c'.closes == c.closes + if c.status == Open && c'.status == Closing then 1 else 0
  {
    match step
    case Handle(l, close) => assert LoopOk(s, l);
    case RunTask(l) => LifeAdvancesInTask(s, l, id);
    case Insert(l) => assert LoopOk(s, l);
    case _ =>
  }

  lemma {:induction false} LifeAdvancesInTask(s: State, l: Loop, id: Id)
    requires Inv(s) && Enabled(s, RunTask(l)) && id < |s.conns|
    ensures id < |Apply(s, RunTask(l)).conns|
    ensures var c, c' := s.conns[id], Apply(s, RunTask(l)).conns[id];
            && c'.fd == c.fd && c'.loop == c.loop && c'.closes == c.closes
            && Rank(c.status) <= Rank(c'.status) && (c.status != Closing ==> c'.status != Closing)
  {
    TaskRemoved(s, l);
  }

  // ---------------------------------------------------------------- balance

  ghost predicate RoundRobin(s: State) {
    && |s.loops| > 0
    && forall id :: 0 <= id < |s.conns| ==>
         s.conns[id].loop == if |s.loops| == 1 then MAIN else 1 + ThreadPool.PickOf(id, |s.loops| - 1)
  }

  function OnLoop(conns: seq<Connection>, l: Loop): nat {
    if conns == [] then 0
    else OnLoop(conns[..|conns| - 1], l) + if conns[|conns| - 1].loop == l then 1 else 0
  }

  lemma {:induction false} RoundRobinOverRun(s: State, steps: seq<Step>)
    requires RoundRobin(s) && IsRun(s, steps)
    ensures RoundRobin(After(s, steps)) && |After(s, steps).loops| == |s.loops|
    decreases |steps|
  {
    if steps != [] {
      RoundRobinKept(s, steps[0]);
      RoundRobinOverRun(Apply(s, steps[0]), steps[1..]);
    }
  }

  lemma {:induction false} RoundRobinKept(s: State, step: Step)
    requires RoundRobin(s) && Enabled(s, step)
    ensures RoundRobin(Apply(s, step)) && |Apply(s, step).loops| == |s.loops|
  {
    var s' := Apply(s, step);
    assert |s'.loops| == |s.loops|;
    forall id | 0 <= id < |s.conns| ensures s'.conns[id].loop == s.conns[id].loop {}
  }

  lemma {:induction false} OnLoopIsTimesPicked(conns: seq<Connection>, n: nat, j: nat)
    requires n > 0 && j < n
    requires forall id :: 0 <= id < |conns| ==> conns[id].loop == 1 + ThreadPool.PickOf(id, n)
    ensures OnLoop(conns, 1 + j) == ThreadPool.TimesPicked(|conns|, n, j)
    decreases |conns|
  {
    if conns != [] {
      OnLoopIsTimesPicked(conns[..|conns| - 1], n, j);
    }
  }

  /** After any run, the accepted connections are spread evenly over the sub-loops. */
  lemma {:induction false} HandOffIsBalanced(subLoops: nat, steps: seq<Step>, j: nat)
    requires subLoops > 0 && j < subLoops
    requires IsRun(Start(subLoops), steps)
    ensures var k := |After(Start(subLoops), steps).conns|;
            k / subLoops <= OnLoop(After(Start(subLoops), steps).conns, 1 + j) <= (k + subLoops - 1) / subLoops
  {
    RoundRobinOverRun(Start(subLoops), steps);
    var conns := After(Start(subLoops), steps).conns;
    OnLoopIsTimesPicked(conns, subLoops, j);
    ThreadPool.PicksAreBalanced(|conns|, subLoops, j);
  }
}
