/**
 The whole server: the loops and the shared table of Lifetime, with the connections of
 HttpServerConnection behind the events.  A wait reports for each descriptor what it is registered for
 at that moment; the callback runs later, in its turn of the batch.  Whatever the interleaving, each
 connection sees a run of its own, and so answers its own client like a sequential server.
 */
module ServerRun {
  import Lifetime
  import DescriptorReuse
  import opened HttpServerConnection
  import opened HttpResponsePrinter
  import opened HttpRequestSpec
  import opened EndToEnd

  /** What epoll reports of a descriptor. */
  datatype Report = Input | Output | HangUp | ErrorAlone

  function ReportOf(e: Event): Report {
    match e
    case Readable(_, _, _, _) => Input
    case Writable(_) => Output
    case Hangup => HangUp
    case ErrorReport => ErrorAlone
  }

  predicate RegisteredFor(interest: Interest, report: Report) {
    match report
    case Input => interest.reading
    case Output => interest.writing
    case HangUp => interest != NO_INTEREST
    case ErrorAlone => interest != NO_INTEREST
  }

  /** What the callback finds when it runs: some input, and a response printed in some order. */
  ghost predicate Delivered(c: Conn, e: Event) {
    e.Readable? && e.input.Data? ==>
      && 0 < |e.input.bytes| <= READ_SIZE
      && PrintsAs(ResponseTo(Feed(c.request, e.input.bytes), e.answer), e.text)
  }

  datatype State = State(
    life: Lifetime.State,
    conns: seq<Conn>,                 // by number, as in `life`; before its creation a connection is OPENED
    reports: seq<seq<Report>>,        // of each loop, for the events of its batch that are still to be handled
    histories: seq<seq<Event>>)       // the events handled for each connection

  datatype Step =
    | Wait(loop: Lifetime.Loop, batch: seq<Lifetime.Id>, reports: seq<Report>)
    | Serve(loop: Lifetime.Loop, event: Event)
    | Other(step: Lifetime.Step)      // accept, hand off, queue an erase, take the queue, run a functor, ...

  function Start(subLoops: nat): State {
    State(Lifetime.Start(subLoops), [], seq(subLoops + 1, _ => []), [])
  }

  ghost predicate Enabled(s: State, step: Step) {
    match step
    case Wait(l, batch, reports) =>
      && Lifetime.Enabled(s.life, Lifetime.WaitReturn(l, batch))
      && l < |s.reports| && |reports| == |batch|
      && forall i :: 0 <= i < |batch| ==> batch[i] < |s.conns| && RegisteredFor(s.conns[batch[i]].interest, reports[i])
    case Serve(l, e) =>
      && Lifetime.Enabled(s.life, Lifetime.Handle(l, true))
      && l < |s.reports| && s.reports[l] != [] && ReportOf(e) == s.reports[l][0]
      && Head(s, l) < |s.conns| && Head(s, l) < |s.histories|
      && Delivered(s.conns[Head(s, l)], e)
    case Other(step) => Lifetime.Enabled(s.life, step) && !step.WaitReturn? && !step.Handle?
  }

  /** The connection whose event loop `l` handles next. */
  function Head(s: State, l: Lifetime.Loop): Lifetime.Id
    requires Lifetime.Enabled(s.life, Lifetime.Handle(l, true))
  {
    s.life.loops[l].pc.batch[0]
  }

  function Served(c: Conn, e: Event): Conn {
    if c.writeSent <= |c.writeBuf| then AfterEvent(c, e) else c
  }

  /** The step that the loops and the table see: an event closes when its callback does. */
  ghost function LifeStep(s: State, step: Step): (life: Lifetime.Step)
    requires Enabled(s, step)
    ensures Lifetime.Enabled(s.life, life)
  {
    match step
    case Wait(l, batch, _) => Lifetime.WaitReturn(l, batch)
    case Serve(l, e) => Lifetime.Handle(l, Served(s.conns[Head(s, l)], e).closing)
    case Other(step) => step
  }

  ghost function Apply(s: State, step: Step): State
    requires Enabled(s, step)
  {
    var life := Lifetime.Apply(s.life, LifeStep(s, step));
    match step
    case Wait(l, _, reports) => s.(life := life, reports := s.reports[l := reports])
    case Serve(l, e) =>
      var id := Head(s, l);
      State(life,
            s.conns[id := Served(s.conns[id], e)],
            s.reports[l := s.reports[l][1..]],
            s.histories[id := s.histories[id] + [e]])
    case Other(step) =>
      if step.HandOff? then s.(life := life, conns := s.conns + [OPENED], histories := s.histories + [[]])
      else s.(life := life)
  }

  ghost predicate IsServerRun(s: State, steps: seq<Step>)
    decreases |steps|
  {
    steps == [] || (Enabled(s, steps[0]) && IsServerRun(Apply(s, steps[0]), steps[1..]))
  }

  ghost function After(s: State, steps: seq<Step>): State
    requires IsServerRun(s, steps)
    decreases |steps|
  {
    if steps == [] then s else After(Apply(s, steps[0]), steps[1..])
  }

  /** The run of the loops and the table behind a run of the server. */
  ghost function LifeSteps(s: State, steps: seq<Step>): seq<Lifetime.Step>
    requires IsServerRun(s, steps)
    decreases |steps|
  {
    if steps == [] then [] else [LifeStep(s, steps[0])] + LifeSteps(Apply(s, steps[0]), steps[1..])
  }

  lemma {:induction false} LifeRuns(s: State, steps: seq<Step>)
    requires IsServerRun(s, steps)
    ensures Lifetime.IsRun(s.life, LifeSteps(s, steps))
    ensures Lifetime.After(s.life, LifeSteps(s, steps)) == After(s, steps).life
    decreases |steps|
  {
    if steps != [] {
      LifeRuns(Apply(s, steps[0]), steps[1..]);
      assert LifeSteps(s, steps)[1..] == LifeSteps(Apply(s, steps[0]), steps[1..]);
    }
  }

  // ---------------------------------------------------------------- invariant

  predicate Closed(status: Lifetime.Status) {
    status == Lifetime.Closing || status == Lifetime.Destroyed
  }

  /** The connection is where its own events have brought it, and closed when the loops say so. */
  ghost predicate ConnOk(s: State, id: Lifetime.Id)
    requires id < |s.conns| == |s.life.conns| == |s.histories|
  {
    && IsRun(OPENED, s.histories[id]) && AfterRun(OPENED, s.histories[id]) == s.conns[id]
    && (s.conns[id].closing <==> Closed(s.life.conns[id].status))
  }

  /** What was reported is still registered when its turn comes. */
  ghost predicate BatchOk(s: State, l: Lifetime.Loop)
    requires l < |s.life.loops| == |s.reports|
  {
    var batch := Lifetime.Batch(s.life.loops[l].pc);
    Lifetime.InBatch(s.life.loops[l].pc) ==>
      && |s.reports[l]| == |batch|
      && forall i :: 0 <= i < |batch| ==>
           batch[i] < |s.conns| && RegisteredFor(s.conns[batch[i]].interest, s.reports[l][i])
  }

  ghost predicate Inv(s: State) {
    && Lifetime.Inv(s.life)
    && |s.conns| == |s.life.conns| == |s.histories| && |s.reports| == |s.life.loops|
    && (forall id :: 0 <= id < |s.conns| ==> ConnOk(s, id))
    && (forall l :: 0 <= l < |s.reports| ==> BatchOk(s, l))
  }

  lemma {:induction false} OpenedIsExact()
    ensures InterestExact(OPENED)
  {
  }

  lemma {:induction false} ConnIsExact(s: State, id: Lifetime.Id)
    requires Inv(s) && id < |s.conns|
    ensures InterestExact(s.conns[id])
  {
    OpenedIsExact();
    assert ConnOk(s, id);
    InterestOverRun(OPENED, s.histories[id]);
  }

  /** The event at the head of a batch is one that the connection's own run allows. */
  lemma {:induction false} ServedCanOccur(s: State, l: Lifetime.Loop, e: Event)
    requires Inv(s) && Enabled(s, Serve(l, e))
    ensures var c := s.conns[Head(s, l)];
            InterestExact(c) && CanOccur(c, e) && Served(c, e) == AfterEvent(c, e) && InterestExact(AfterEvent(c, e))
  {
    ConnIsExact(s, Head(s, l));
    assert BatchOk(s, l);
    EventKeepsInterest(s.conns[Head(s, l)], e);
  }

  lemma {:induction false} RunOneMore(c: Conn, evs: seq<Event>, e: Event)
    requires IsRun(c, evs)
    requires AfterRun(c, evs).writeSent <= |AfterRun(c, evs).writeBuf| && CanOccur(AfterRun(c, evs), e)
    ensures IsRun(c, evs + [e]) && AfterRun(c, evs + [e]) == AfterEvent(AfterRun(c, evs), e)
    decreases |evs|
  {
    var more := evs + [e];
    if evs == [] {
      assert more == [e] && [e][1..] == [];
    } else {
      assert more[0] == evs[0] && more[1..] == evs[1..] + [e];
      RunOneMore(AfterEvent(c, evs[0]), evs[1..], e);
    }
  }

  /** Only events close: no other step that keeps to free slots makes a connection closed or not. */
  lemma {:induction false} OthersDoNotClose(s: Lifetime.State, step: Lifetime.Step, id: Lifetime.Id)
    requires Lifetime.Inv(s) && Lifetime.Enabled(s, step) && Lifetime.SlotFree(s, step)
    requires id < |s.conns| && !step.Handle?
    ensures id < |Lifetime.Apply(s, step).conns|
    ensures Closed(Lifetime.Apply(s, step).conns[id].status) <==> Closed(s.conns[id].status)
  {
    Lifetime.LifeAdvances(s, step, id);
    Lifetime.OwnEraseIffSlotFree(s, step);
  }

  // ---------------------------------------------------------------- each step keeps it

  /** What one event does to the loops and the table. */
  lemma {:induction false} HandleEffect(s: Lifetime.State, l: Lifetime.Loop, close: bool)
    requires Lifetime.Inv(s) && Lifetime.Enabled(s, Lifetime.Handle(l, close))
    ensures var id, s' := s.loops[l].pc.batch[0], Lifetime.Apply(s, Lifetime.Handle(l, close));
            && s.conns[id].status == Lifetime.Open
            && |s'.conns| == |s.conns| && |s'.loops| == |s.loops|
            && s'.conns[id].status == (if close then Lifetime.Closing else Lifetime.Open)
            && (forall other :: 0 <= other < |s.conns| && other != id ==> s'.conns[other] == s.conns[other])
            && Lifetime.InBatch(s'.loops[l].pc) && Lifetime.Batch(s'.loops[l].pc) == s.loops[l].pc.batch[1..]
            && (forall m :: 0 <= m < |s.loops| && m != l ==> s'.loops[m] == s.loops[m])
  {
    Lifetime.HeadIsOpen(s, l);
  }

  /** A connection is in one batch only, and once. */
  lemma {:induction false} HeadIsNowhereElse(s: Lifetime.State, l: Lifetime.Loop, m: Lifetime.Loop, i: nat)
    requires Lifetime.Inv(s) && Lifetime.Enabled(s, Lifetime.Handle(l, true))
    requires m < |s.loops| && i < |Lifetime.Batch(s.loops[m].pc)|
    requires m != l || i > 0
    ensures Lifetime.Batch(s.loops[m].pc)[i] != s.loops[l].pc.batch[0]
  {
    Lifetime.HeadIsOpen(s, l);
    assert Lifetime.LoopOk(s, m) && Lifetime.LoopOk(s, l);
    assert Lifetime.InTable(s, m, Lifetime.Batch(s.loops[m].pc)[i]);
  }

  lemma {:induction false} ServeKeepsConn(s: State, l: Lifetime.Loop, e: Event, id: Lifetime.Id)
    requires Inv(s) && Enabled(s, Serve(l, e)) && id < |s.conns|
    ensures |Apply(s, Serve(l, e)).conns| == |Apply(s, Serve(l, e)).life.conns| == |Apply(s, Serve(l, e)).histories|
    ensures ConnOk(Apply(s, Serve(l, e)), id)
  {
    assert ConnOk(s, id);
    var head := Head(s, l);
    HandleEffect(s.life, l, Served(s.conns[head], e).closing);
    if id == head {
      ConnIsExact(s, id);
      ServedCanOccur(s, l, e);
      RunOneMore(OPENED, s.histories[id], e);
    }
  }

  lemma {:induction false} ServeKeepsBatch(s: State, l: Lifetime.Loop, e: Event, m: Lifetime.Loop)
    requires Inv(s) && Enabled(s, Serve(l, e)) && m < |s.reports|
    ensures |Apply(s, Serve(l, e)).reports| == |Apply(s, Serve(l, e)).life.loops| == |s.reports|
    ensures BatchOk(Apply(s, Serve(l, e)), m)
  {
    var s' := Apply(s, Serve(l, e));
    var head := Head(s, l);
    HandleEffect(s.life, l, Served(s.conns[head], e).closing);
    assert BatchOk(s, m);
    if Lifetime.InBatch(s'.life.loops[m].pc) {
      var batch := Lifetime.Batch(s'.life.loops[m].pc);
      forall i | 0 <= i < |batch|
        ensures batch[i] < |s'.conns| && RegisteredFor(s'.conns[batch[i]].interest, s'.reports[m][i])
      {
        HeadIsNowhereElse(s.life, l, m, if m == l then i + 1 else i);
      }
    }
  }

  lemma {:induction false} OtherKeepsConn(s: State, step: Step, id: Lifetime.Id)
    requires Inv(s) && Enabled(s, step) && !step.Serve? && Lifetime.SlotFree(s.life, LifeStep(s, step))
    requires Lifetime.Inv(Apply(s, step).life)
    requires id < |Apply(s, step).conns|
    ensures |Apply(s, step).conns| == |Apply(s, step).life.conns| == |Apply(s, step).histories|
    ensures ConnOk(Apply(s, step), id)
  {
    if id < |s.conns| {
      assert ConnOk(s, id);
      OthersDoNotClose(s.life, LifeStep(s, step), id);
    }
  }

  lemma {:induction false} OtherKeepsBatch(s: State, step: Step, l: Lifetime.Loop)
    requires Inv(s) && Enabled(s, step) && !step.Serve? && l < |s.reports|
    ensures |Apply(s, step).reports| == |Apply(s, step).life.loops| == |s.reports|
    ensures BatchOk(Apply(s, step), l)
  {
    assert BatchOk(s, l);
    if step.Other? {
      OtherKeepsBatches(s.life, step.step, l);
    }
  }

  /** Steps other than waits and events leave every batch as it is, or end it. */
  lemma {:induction false} OtherKeepsBatches(s: Lifetime.State, step: Lifetime.Step, l: Lifetime.Loop)
    requires Lifetime.Enabled(s, step) && !step.WaitReturn? && !step.Handle? && l < |s.loops|
    ensures |Lifetime.Apply(s, step).loops| == |s.loops|
    ensures var pc, pc' := s.loops[l].pc, Lifetime.Apply(s, step).loops[l].pc;
            Lifetime.InBatch(pc') ==> Lifetime.InBatch(pc) && Lifetime.Batch(pc') == Lifetime.Batch(pc)
  {
  }

  lemma {:induction false} StepKeeps(s: State, step: Step)
    requires Inv(s) && Enabled(s, step) && Lifetime.SlotFree(s.life, LifeStep(s, step))
    ensures Inv(Apply(s, step))
  {
    var s' := Apply(s, step);
    Lifetime.StepKeeps(s.life, LifeStep(s, step));
    if step.Serve? {
      HandleEffect(s.life, step.loop, Served(s.conns[Head(s, step.loop)], step.event).closing);
      forall id | 0 <= id < |s'.conns| ensures ConnOk(s', id) { ServeKeepsConn(s, step.loop, step.event, id); }
      forall l | 0 <= l < |s'.reports| ensures BatchOk(s', l) { ServeKeepsBatch(s, step.loop, step.event, l); }
    } else {
      forall id | 0 <= id < |s'.conns| ensures ConnOk(s', id) { OtherKeepsConn(s, step, id); }
      forall l | 0 <= l < |s'.reports| ensures BatchOk(s', l) { OtherKeepsBatch(s, step, l); }
    }
  }

  /** The hypothesis on a run of the server: every descriptor is handed off in order. */
  ghost predicate HandOffsInOrder(s: State, steps: seq<Step>)
    requires IsServerRun(s, steps)
    decreases |steps|
  {
    steps == [] ||
    (DescriptorReuse.HandsOffInOrder(s.life, LifeStep(s, steps[0])) && HandOffsInOrder(Apply(s, steps[0]), steps[1..]))
  }

  lemma {:induction false} InvOverRun(s: State, steps: seq<Step>)
    requires Inv(s) && DescriptorReuse.OrderOk(s.life) && IsServerRun(s, steps) && HandOffsInOrder(s, steps)
    ensures Inv(After(s, steps))
    decreases |steps|
  {
    if steps != [] {
      DescriptorReuse.OrderKept(s.life, LifeStep(s, steps[0]));
      StepKeeps(s, steps[0]);
      InvOverRun(Apply(s, steps[0]), steps[1..]);
    }
  }

  // ---------------------------------------------------------------- main results

  /**
   Over any interleaving of any number of loops in which descriptors are handed off in order, each
   connection goes through a run of its own: every event that is dispatched to it is one that its
   state allows, nothing but its own events changes it, and it is closing exactly when the loops have
   closed its descriptor.  The epoll tables hold exactly the connections that still have interest.
   */
  lemma {:induction false} ConnectionsRunAlone(subLoops: nat, steps: seq<Step>)
    requires IsServerRun(Start(subLoops), steps) && HandOffsInOrder(Start(subLoops), steps)
    ensures var s := After(Start(subLoops), steps);
            && |s.conns| == |s.life.conns| == |s.histories|
            && forall id :: 0 <= id < |s.conns| ==>
                 && ConnOk(s, id)
                 && (Lifetime.InTable(s.life, s.life.conns[id].loop, id) <==>
                       s.life.conns[id].status != Lifetime.Queued && s.conns[id].interest != NO_INTEREST)
  {
    Lifetime.StartOk(subLoops);
    InvOverRun(Start(subLoops), steps);
    var s := After(Start(subLoops), steps);
    forall id | 0 <= id < |s.conns|
      ensures ConnOk(s, id)
      ensures Lifetime.InTable(s.life, s.life.conns[id].loop, id) <==>
                s.life.conns[id].status != Lifetime.Queued && s.conns[id].interest != NO_INTEREST
    {
      ConnIsExact(s, id);
      TableHoldsServed(s.life, id);
    }
  }

  lemma {:induction false} TableHoldsServed(s: Lifetime.State, id: Lifetime.Id)
    requires Lifetime.Inv(s) && id < |s.conns|
    ensures Lifetime.InTable(s, s.conns[id].loop, id) <==>
              s.conns[id].status == Lifetime.Creating || s.conns[id].status == Lifetime.Open
  {
    assert Lifetime.PlaceOk(s, id) && Lifetime.LoopOk(s, s.conns[id].loop);
  }

  /**
   So the whole server refines one sequential server for each client.  Let a client send whole
   requests, all but the last keep-alive, and let none of it be read before the previous response is
   out.  Then, whatever the other clients and the other loops do, this client's connection has answered
   its requests in order with what the callback answered, printed; and its descriptor is closed only
   after the last response is out, and by then if and only if the last request is not keep-alive.
   */
  lemma {:induction false} EveryClientIsServedInOrder(subLoops: nat, steps: seq<Step>, id: Lifetime.Id, script: seq<Item>)
    requires IsServerRun(Start(subLoops), steps) && HandOffsInOrder(Start(subLoops), steps)
    requires var s := After(Start(subLoops), steps);
             && id < |s.histories| && Script(script)
             && IsRun(OPENED, s.histories[id]) && PoliteRun(OPENED, s.histories[id])
             && ReadsOf(s.histories[id]) <= Flatten(script)
    ensures var s := After(Start(subLoops), steps);
            && |s.conns| == |s.life.conns| == |s.histories|
            && var c := s.conns[id];
            && SequentialCalls(script, AnswersOver(OPENED, s.histories[id]), c.calls)
            && c.sent + Unsent(c) == Texts(c.calls)
            && (ReadsOf(s.histories[id]) == Flatten(script) <==> |c.calls| == |script|)
            && (Closed(s.life.conns[id].status) ==> Unsent(c) == "" && |c.calls| == |script|)
            && (|c.calls| == |script| && Unsent(c) == "" ==>
                  (Closed(s.life.conns[id].status) <==> script != [] && !KeepAlive(script[|script| - 1].request)))
  {
    ConnectionsRunAlone(subLoops, steps);
    ServerRefinesSequential(script, After(Start(subLoops), steps).histories[id]);
  }
}
