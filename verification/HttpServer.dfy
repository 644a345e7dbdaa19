/**
 The server object (HttpServer.h, HttpServer.cpp): hand-off of new connections and the shared table
 from descriptors to connections.  Each method is what one thread does in one go; their interleaving
 over all the loops is in Lifetime.
 */
module HttpServerObject {
  import opened Reactor
  import opened ThreadPool
  import opened HttpServerConnection
  import opened HttpServerConnectionObject

  class HttpServer {
    const pool: EventLoopThreadPool
    var connections: map<int, Connection>

    constructor (mainLoop: EventLoop, numThreads: int)
      ensures fresh(pool) && pool.Valid() && pool.loops == [] && pool.picks == 0
      ensures pool.baseLoop == mainLoop && pool.numThreads == numThreads
      ensures connections == map[]
    {
      pool := new EventLoopThreadPool(mainLoop, numThreads);
      connections := map[];
    }

    /**
     A new descriptor goes to the next loop.  With sub-loops the create functor is queued there and the
     loop is woken; without, the main loop is the one, whose thread this is, and creates it at once.
     */
    method OnNewConnection(fd: int)
      requires pool.Valid()
      requires pool.loops == [] ==> pool.baseLoop.Mirror() && fd !in pool.baseLoop.table
      modifies this`connections, pool`next, pool`picks
      modifies pool.loops`pendingFunctors, pool.loops`counter
      modifies pool.baseLoop`pendingFunctors, pool.baseLoop`counter
      modifies pool.baseLoop`channels, pool.baseLoop`table, pool.baseLoop`ctlErrors
      ensures pool.Valid() && pool.picks == old(pool.picks) + 1
      ensures pool.loops != [] ==>
                var next := pool.loops[PickOf(old(pool.picks), |pool.loops|)];
                && next.pendingFunctors == old(next.pendingFunctors) + [CreateConnection(fd)]
                && next.counter == (if next.wakeupFd < 0 then old(next.counter) else AfterWrite(old(next.counter)))
                && (forall l :: l in pool.loops && l != next ==>
                      l.pendingFunctors == old(l.pendingFunctors) && l.counter == old(l.counter))
                && connections == old(connections)
                && pool.baseLoop.table == old(pool.baseLoop.table)
                && pool.baseLoop.channels == old(pool.baseLoop.channels)
      ensures pool.loops == [] ==>
                && fd in connections && Created(old(connections), connections[fd], pool.baseLoop, fd, old(pool.baseLoop.table))
                && fresh(connections[fd])
      ensures pool.baseLoop.ctlErrors == old(pool.baseLoop.ctlErrors)
      ensures pool.baseLoop !in pool.loops ==>
                && pool.baseLoop.pendingFunctors == old(pool.baseLoop.pendingFunctors)
                && pool.baseLoop.counter == old(pool.baseLoop.counter)
    {
      var loop := pool.GetNextLoop();
      var inline := loop.RunInLoop(CreateConnection(fd), pool.loops == []);
      if inline {
        var conn := RunCreate(loop, fd);
      }
    }

    /** The connection is open and fresh, registered for reading, and entered under its descriptor. */
    ghost predicate Created(before: map<int, Connection>, conn: Connection, loop: EventLoop, fd: int,
                            table: map<int, Registration>)
      reads this, conn, conn.request, conn.channel, conn.loop, conn.loop.channels, loop
    {
      && conn.Valid() && conn.loop == loop && conn.channel.fd == fd && conn.Abs() == OPENED
      && loop.table == table[fd := Registration(EPOLLIN, conn.channel)]
      && connections == before[fd := conn]
    }

    /** The create functor, on its loop's thread. */
    method RunCreate(loop: EventLoop, fd: int) returns (conn: Connection)
      requires loop.Mirror() && fd !in loop.table
      modifies this`connections, loop`channels, loop`table, loop`ctlErrors
      ensures fresh(conn) && Created(old(connections), conn, loop, fd, old(loop.table))
      ensures loop.ctlErrors == old(loop.ctlErrors)
    {
      conn := new Connection(loop, fd);
      connections := connections[fd := conn];
    }

    /** The erase functor: whatever connection the descriptor has now. */
    method RunErase(fd: int)
      modifies this`connections
      ensures connections == old(connections) - {fd}
    {
      connections := connections - {fd};
    }
  }
}
