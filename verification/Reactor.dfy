/**
 Channels and the loop's epoll table (Channel.h, Channel.cpp, EventLoop.cpp): objects updated in
 place, and the proof that the table mirrors the channels, so that no epoll_ctl call ever fails for
 a descriptor that is there already or not there at all.
 */
module Reactor {

  const EPOLLIN: bv32 := 0x001
  const EPOLLOUT: bv32 := 0x004
  const EPOLLERR: bv32 := 0x008
  const EPOLLHUP: bv32 := 0x010
  const EPOLLRDHUP: bv32 := 0x2000

  // ---------------------------------------------------------------- the eventfd counter

  const EVENTFD_MAX: nat := 0xFFFF_FFFF_FFFF_FFFE

  /** A write of 1; at the maximum it fails with EAGAIN, which the code ignores. */
  function AfterWrite(counter: nat): nat {
    if counter < EVENTFD_MAX then counter + 1 else counter
  }

  /** A read takes the whole count; of an empty counter it fails with EAGAIN, which is ignored. */
  function AfterRead(counter: nat): nat {
    0
  }

  /** The most events that one `epoll_wait` reports. */
  const MAX_EVENTS: nat := 4096

  // ---------------------------------------------------------------- dispatch

  datatype Callback = NoCallback | WriteCallback | ReadCallback | CloseCallback | ErrorCallback

  /** Which callbacks a channel has been given. */
  datatype Handlers = Handlers(read: bool, write: bool, close: bool, error: bool)

  function Dispatched(revents: bv32, h: Handlers): Callback {
    if revents & EPOLLOUT != 0 && h.write then WriteCallback
    else if revents & EPOLLIN != 0 && h.read then ReadCallback
    else if revents & (EPOLLHUP | EPOLLRDHUP) != 0 && h.close then CloseCallback
    else if revents & EPOLLERR != 0 && h.error then ErrorCallback
    else NoCallback
  }

  /** The report calls for this callback. */
  predicate Reported(callback: Callback, revents: bv32) {
    match callback
    case WriteCallback => revents & EPOLLOUT != 0
    case ReadCallback => revents & EPOLLIN != 0
    case CloseCallback => revents & (EPOLLHUP | EPOLLRDHUP) != 0
    case ErrorCallback => revents & EPOLLERR != 0
    case NoCallback => false
  }

  predicate Installed(callback: Callback, h: Handlers) {
    match callback
    case WriteCallback => h.write
    case ReadCallback => h.read
    case CloseCallback => h.close
    case ErrorCallback => h.error
    case NoCallback => false
  }

  function Priority(callback: Callback): nat {
    match callback
    case WriteCallback => 0
    case ReadCallback => 1
    case CloseCallback => 2
    case ErrorCallback => 3
    case NoCallback => 4
  }

  /**
   A channel with read, write and close callbacks but no error callback, as the server's are: every
   report that carries more than an error runs exactly one of them, writing before reading before
   closing; an error alone runs none.
   */
  lemma {:induction false} ServerDispatch(revents: bv32)
    ensures var callback := Dispatched(revents, Handlers(true, true, true, false));
            && (callback == WriteCallback <==> revents & 0x4 == 0x4)
            && (callback == ReadCallback <==> revents & 0x5 == 0x1)
            && (callback == CloseCallback <==> revents & 0x5 == 0 && revents & 0x2010 != 0)
            && (callback == NoCallback <==> revents & 0x2015 == 0)
  {
    assert revents & EPOLLOUT != 0 <==> revents & EPOLLOUT == EPOLLOUT;
    assert revents & (EPOLLIN | EPOLLOUT) == EPOLLIN <==> revents & EPOLLIN != 0 && revents & EPOLLOUT == 0;
    assert revents & (EPOLLIN | EPOLLOUT) == 0 <==> revents & EPOLLIN == 0 && revents & EPOLLOUT == 0;
    assert revents & (EPOLLIN | EPOLLOUT | EPOLLHUP | EPOLLRDHUP) == 0
      <==> revents & (EPOLLIN | EPOLLOUT) == 0 && revents & (EPOLLHUP | EPOLLRDHUP) == 0;
  }

  /** What a functor handed to a loop does, as far as the server goes. */
  datatype Functor = CreateConnection(fd: int) | EraseConnection(fd: int) | UserTask(id: nat)

  datatype Registration = Registration(events: bv32, channel: Channel)

  class Channel {
    const loop: EventLoop
    const fd: int
    var events: bv32
    var revents: bv32
    var addedToEpoll: bool
    var handlers: Handlers

    constructor (loop: EventLoop, fd: int)
      requires loop.Mirror()
      modifies loop`channels
      ensures this.loop == loop && this.fd == fd
      ensures events == 0 && !addedToEpoll && handlers == Handlers(false, false, false, false)
      ensures loop.channels == old(loop.channels) + {this}
      ensures loop.Mirror()
    {
      this.loop, this.fd := loop, fd;
      events, revents, addedToEpoll := 0, 0, false;
      handlers := Handlers(false, false, false, false);
      new;
      loop.channels := loop.channels + {this};
    }

    /** No other channel of the loop is registered under this channel's descriptor. */
    ghost predicate OwnsFd()
      reads this, loop
    {
      this in loop.channels && (fd in loop.table ==> loop.table[fd].channel == this)
    }

    method EnableReading()
      requires loop.Mirror() && OwnsFd()
      modifies this`events, this`addedToEpoll, loop`table, loop`ctlErrors
      ensures events == old(events) | EPOLLIN
      ensures loop.UpdatedFor(this, old(loop.table), old(loop.ctlErrors))
    {
      events := events | EPOLLIN;
      StillNonZero(old(events), EPOLLIN);
      loop.UpdateChannel(this);
    }

    method EnableWriting()
      requires loop.Mirror() && OwnsFd()
      modifies this`events, this`addedToEpoll, loop`table, loop`ctlErrors
      ensures events == old(events) | EPOLLOUT
      ensures loop.UpdatedFor(this, old(loop.table), old(loop.ctlErrors))
    {
      events := events | EPOLLOUT;
      StillNonZero(old(events), EPOLLOUT);
      loop.UpdateChannel(this);
    }

    method DisableReading()
      requires loop.Mirror() && OwnsFd()
      modifies this`events, this`addedToEpoll, loop`table, loop`ctlErrors
      ensures events == old(events) & !EPOLLIN
      ensures loop.UpdatedFor(this, old(loop.table), old(loop.ctlErrors))
    {
      events := events & !EPOLLIN;
      loop.UpdateChannel(this);
    }

    method DisableWriting()
      requires loop.Mirror() && OwnsFd()
      modifies this`events, this`addedToEpoll, loop`table, loop`ctlErrors
      ensures events == old(events) & !EPOLLOUT
      ensures loop.UpdatedFor(this, old(loop.table), old(loop.ctlErrors))
    {
      events := events & !EPOLLOUT;
      loop.UpdateChannel(this);
    }

    method DisableAll()
      requires loop.Mirror() && OwnsFd()
      modifies this`events, this`addedToEpoll, loop`table, loop`ctlErrors
      ensures events == 0
      ensures loop.UpdatedFor(this, old(loop.table), old(loop.ctlErrors))
    {
      events := 0;
      loop.UpdateChannel(this);
    }

    /**
     The one callback that an event runs: the first of write, read, close and error that is both
     reported and installed, and none only if no report has its callback.
     */
    method HandleEvent() returns (callback: Callback)
      ensures callback == Dispatched(revents, handlers)
      ensures callback == NoCallback || (Reported(callback, revents) && Installed(callback, handlers))
      ensures forall other :: Reported(other, revents) && Installed(other, handlers) ==> Priority(callback) <= Priority(other)
    {
      if revents & EPOLLOUT != 0 && handlers.write {
        return WriteCallback;
      }
      if revents & EPOLLIN != 0 && handlers.read {
        return ReadCallback;
      }
      if revents & (EPOLLHUP | EPOLLRDHUP) != 0 && handlers.close {
        return CloseCallback;
      }
      if revents & EPOLLERR != 0 && handlers.error {
        return ErrorCallback;
      }
      return NoCallback;
    }
  }

  lemma {:induction false} StillNonZero(events: bv32, bit: bv32)
    requires bit == EPOLLIN || bit == EPOLLOUT
    ensures events | bit != 0
    ensures (events | bit) & bit != 0
  {
  }

  class EventLoop {
    var table: map<int, Registration>   // the kernel's interest list
    var ctlErrors: nat                  // epoll_ctl calls that failed
    var quit: bool
    const wakeupFd: int
    var counter: nat                    // of the eventfd
    var pendingFunctors: seq<Functor>
    ghost var channels: set<Channel>    // every channel created on this loop

    constructor (wakeupFd: int)
      ensures Mirror() && channels == {} && table == map[] && ctlErrors == 0
      ensures pendingFunctors == [] && counter == 0 && !quit
    {
      table, ctlErrors, quit, counter, pendingFunctors := map[], 0, false, 0, [];
      this.wakeupFd := wakeupFd;
      channels := {};
    }

    /** The table maps a descriptor exactly when a channel of it has interest, to that interest. */
    ghost predicate Mirror()
      reads this, channels
    {
      && (forall c :: c in channels ==> c.loop == this)
      && (forall c :: c in channels ==> (c.addedToEpoll <==> c.events != 0))
      && (forall c :: c in channels && c.addedToEpoll ==>
            c.fd in table && table[c.fd] == Registration(c.events, c))
      && (forall fd :: fd in table ==>
            table[fd].channel in channels && table[fd].channel.fd == fd && table[fd].channel.addedToEpoll)
    }

    /** What `update` leaves behind: a mirror again, one table entry changed, no call failed. */
    ghost predicate UpdatedFor(ch: Channel, oldTable: map<int, Registration>, oldErrors: nat)
      reads this, channels, ch
    {
      && Mirror()
      && ctlErrors == oldErrors
      && (ch.events != 0 ==> table == oldTable[ch.fd := Registration(ch.events, ch)])
      && (ch.events == 0 ==>
            table == if ch.fd in oldTable && oldTable[ch.fd].channel == ch then oldTable - {ch.fd} else oldTable)
    }

    /** The state between changing a channel's interest and telling epoll about it. */
    ghost predicate MirrorBut(ch: Channel)
      reads this, channels, ch
    {
      && (forall c :: c in channels ==> c.loop == this)
      && (forall c :: c in channels && c != ch ==> (c.addedToEpoll <==> c.events != 0))
      && (forall c :: c in channels && c != ch && c.addedToEpoll ==>
            c.fd in table && table[c.fd] == Registration(c.events, c))
      && (ch.addedToEpoll ==> ch.fd in table && table[ch.fd].channel == ch)
      && (forall fd :: fd in table ==>
            table[fd].channel in channels && table[fd].channel.fd == fd && table[fd].channel.addedToEpoll)
    }

    method UpdateChannel(ch: Channel)
      requires ch in channels && MirrorBut(ch)
      requires ch.fd in table ==> table[ch.fd].channel == ch
      modifies this`table, this`ctlErrors, ch`addedToEpoll
      ensures UpdatedFor(ch, old(table), old(ctlErrors))
    {
      if ch.events == 0 {
        if ch.addedToEpoll {
          CtlDel(ch.fd);
          ch.addedToEpoll := false;
        }
      } else if !ch.addedToEpoll {
        CtlAdd(ch.fd, ch.events, ch);
        ch.addedToEpoll := true;
      } else {
        CtlMod(ch.fd, ch.events, ch);
      }
    }

    // The kernel's side: ADD fails on a descriptor that is there, MOD and DEL on one that is not.

    method CtlAdd(fd: int, events: bv32, ch: Channel)
      modifies this`table, this`ctlErrors
      ensures fd in old(table) ==> table == old(table) && ctlErrors == old(ctlErrors) + 1
      ensures fd !in old(table) ==> table == old(table)[fd := Registration(events, ch)] && ctlErrors == old(ctlErrors)
    {
      if fd in table {
        ctlErrors := ctlErrors + 1;
      } else {
        table := table[fd := Registration(events, ch)];
      }
    }

    method CtlMod(fd: int, events: bv32, ch: Channel)
      modifies this`table, this`ctlErrors
      ensures fd !in old(table) ==> table == old(table) && ctlErrors == old(ctlErrors) + 1
      ensures fd in old(table) ==> table == old(table)[fd := Registration(events, ch)] && ctlErrors == old(ctlErrors)
    {
      if fd in table {
        table := table[fd := Registration(events, ch)];
      } else {
        ctlErrors := ctlErrors + 1;
      }
    }

    method CtlDel(fd: int)
      modifies this`table, this`ctlErrors
      ensures fd !in old(table) ==> table == old(table) && ctlErrors == old(ctlErrors) + 1
      ensures fd in old(table) ==> table == old(table) - {fd} && ctlErrors == old(ctlErrors)
    {
      if fd in table {
        table := table - {fd};
      } else {
        ctlErrors := ctlErrors + 1;
      }
    }

    // The task queue.  Each method up to `QueueInLoop` is one step of the protocol in LoopProtocol.

    method PushPending(cb: Functor)
      modifies this`pendingFunctors
      ensures pendingFunctors == old(pendingFunctors) + [cb]
    {
      pendingFunctors := pendingFunctors + [cb];
    }

    method Wakeup()
      modifies this`counter
      ensures counter == if wakeupFd < 0 then old(counter) else AfterWrite(old(counter))
      ensures wakeupFd >= 0 && old(counter) < 0xFFFF_FFFF_FFFF_FFFE ==> counter == old(counter) + 1
      ensures wakeupFd < 0 || old(counter) >= 0xFFFF_FFFF_FFFF_FFFE ==> counter == old(counter)
    {
      if wakeupFd < 0 { return; }
      counter := AfterWrite(counter);
    }

    method HandleWakeup()
      modifies this`counter
      ensures counter == if wakeupFd < 0 then old(counter) else AfterRead(old(counter))
      ensures wakeupFd >= 0 ==> counter == 0
    {
      if wakeupFd < 0 { return; }
      counter := AfterRead(counter);
    }

    method TakePending() returns (functors: seq<Functor>)
      modifies this`pendingFunctors
      ensures functors == old(pendingFunctors) && pendingFunctors == []
    {
      functors, pendingFunctors := pendingFunctors, [];
    }

    method StoreQuit(value: bool)
      modifies this`quit
      ensures quit == value
    {
      quit := value;
    }

    method Quit()
      modifies this`quit, this`counter
      ensures quit && counter == if wakeupFd < 0 then old(counter) else AfterWrite(old(counter))
    {
      StoreQuit(true);
      Wakeup();
    }

    method QueueInLoop(cb: Functor)
      modifies this`pendingFunctors, this`counter
      ensures pendingFunctors == old(pendingFunctors) + [cb]
      ensures counter == if wakeupFd < 0 then old(counter) else AfterWrite(old(counter))
    {
      PushPending(cb);
      Wakeup();
    }

    /** True when the caller, being the loop's thread, has to run the functor itself, now. */
    method RunInLoop(cb: Functor, inLoopThread: bool) returns (inline: bool)
      modifies this`pendingFunctors, this`counter
      ensures inline == inLoopThread
      ensures pendingFunctors == if inLoopThread then old(pendingFunctors) else old(pendingFunctors) + [cb]
      ensures counter == if inLoopThread || wakeupFd < 0 then old(counter) else AfterWrite(old(counter))
    {
      inline := inLoopThread;
      if !inLoopThread {
        QueueInLoop(cb);
      }
    }
  }
}
