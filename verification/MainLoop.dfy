/**
 The receive loop of the application: `select` over a descriptor set, accepting, reading, and the
 bookkeeping that keeps the set and the socket map in step.
 */
module MainLoop {
  import opened Basics
  import opened SocketMgr
  import Handler

  type Length = n: nat | n > 0 witness 1

  /** The result of a receive: the peer closed, data arrived in a buffer, or an error. */
  datatype Received = Closed | Data(buffer: nat, length: Length, errno: int) | BadDescriptor | OtherError

  /**
   What the kernel answers during one turn: the result and set of `select`, the result of `accept`, and of
   each receive.
   */
  datatype Turn = Turn(r: int, ready: set<int>, accepted: int, peer: nat, received: int -> Received)

  /**
   `select` reports a subset of what it was given, and how many; `accept` fails with -1 or yields another
   descriptor.
   */
  ghost predicate Contract(server: int, watched: set<int>, t: Turn) {
    t.ready <= watched && (t.r > 0 ==> |t.ready| == t.r) && t.accepted != server
  }

  /** A received result after which the loop drops the socket. */
  predicate Drops(x: Received) {
    x.Closed? || x.BadDescriptor?
  }

  /** The callbacks that the protocol library has. */
  datatype Callbacks = Callbacks(onConnect: bool, onReceive: bool, onDisconnect: bool)

  /** The event of a new connection. */
  function ConnectEvent(t: Turn): Handler.Event {
    Handler.Event(Handler.EVENT_CONNECT, t.accepted, t.peer, 0, 0, 0)
  }

  /** What the loop tells the library about one ready socket; a bad descriptor and other errors it does not mention. */
  function EventsOf(callbacks: Callbacks, fd: int, address: nat, x: Received): seq<Handler.Event> {
    match x
    case Closed =>
      if callbacks.onDisconnect then [Handler.Event(Handler.EVENT_DISCONNECT, fd, address, 0, 0, 0)] else []
    case Data(buffer, length, errno) =>
      if callbacks.onReceive then [Handler.Event(Handler.EVENT_RECIEVE, fd, address, buffer, length, errno)] else []
    case _ => []
  }

  // ----- the bookkeeping as a value -----

  /** A turn that gets past the accept: something is ready, and if that is the server socket, the accept succeeded. */
  predicate Proceeds(server: int, t: Turn) {
    t.r != 0 && (server in t.ready ==> t.accepted != -1)
  }

  /** How many sockets are still to be served after the accept. */
  function Left(server: int, t: Turn): int {
    if server in t.ready then t.r - 1 else t.r
  }

  function Opened(server: int, t: Turn): set<int> {
    if Proceeds(server, t) && server in t.ready then {t.accepted} else {}
  }

  function DropSet(keys: set<int>, t: Turn): set<int> {
    set fd | fd in keys && fd in t.ready && Drops(t.received(fd))
  }

  function Dropped(server: int, keys: set<int>, t: Turn): set<int> {
    if Proceeds(server, t) && Left(server, t) > 0 then DropSet(keys, t) else {}
  }

  /** The open sockets after a turn. */
  function NextKeys(server: int, keys: set<int>, t: Turn): set<int> {
    keys + Opened(server, t) - Dropped(server, keys, t)
  }

  function RunKeys(server: int, turns: seq<Turn>): set<int> {
    if turns == [] then {} else NextKeys(server, RunKeys(server, turns[..|turns| - 1]), turns[|turns| - 1])
  }

  /** The map after the accept of a turn that proceeds. */
  function WithAccepted(server: int, sockets: seq<Socket>, t: Turn): seq<Socket> {
    if server !in t.ready || t.accepted in Keys(sockets) then sockets
    else Insert(sockets, Socket(t.accepted, t.peer))
  }

  /** The map after a turn. */
  function NextSockets(server: int, sockets: seq<Socket>, t: Turn): seq<Socket> {
    if !Proceeds(server, t) then sockets
    else
      var accepted := WithAccepted(server, sockets, t);
      if Left(server, t) > 0 then Without(accepted, DropSet(Keys(accepted), t)) else accepted
  }

  function RunSockets(server: int, turns: seq<Turn>): seq<Socket> {
    if turns == [] then []
    else NextSockets(server, RunSockets(server, turns[..|turns| - 1]), turns[|turns| - 1])
  }

  /** What the loop over the map tells the library about its first `n` sockets. */
  function ServeEvents(callbacks: Callbacks, sockets: seq<Socket>, t: Turn, n: nat): seq<Handler.Event>
    requires n <= |sockets|
  {
    if n == 0 then []
    else
      var sock := sockets[n - 1];
      ServeEvents(callbacks, sockets, t, n - 1) +
        (if sock.fd in t.ready then EventsOf(callbacks, sock.fd, sock.address, t.received(sock.fd)) else [])
  }

  function AcceptEvents(server: int, callbacks: Callbacks, t: Turn): seq<Handler.Event> {
    if server in t.ready && callbacks.onConnect then [ConnectEvent(t)] else []
  }

  /** What a turn tells the library: the new connection first, then what the sockets received. */
  function TurnEvents(server: int, callbacks: Callbacks, sockets: seq<Socket>, t: Turn): seq<Handler.Event> {
    if !Proceeds(server, t) then []
    else
      var accepted := WithAccepted(server, sockets, t);
      AcceptEvents(server, callbacks, t) +
        (if Left(server, t) > 0 then ServeEvents(callbacks, accepted, t, |accepted|) else [])
  }

  function RunEvents(server: int, callbacks: Callbacks, turns: seq<Turn>): seq<Handler.Event> {
    if turns == [] then []
    else
      var before, t := turns[..|turns| - 1], turns[|turns| - 1];
      RunEvents(server, callbacks, before) + TurnEvents(server, callbacks, RunSockets(server, before), t)
  }

  /** The ready positions among the first `n` sockets, in the order of the map. */
  function ReadyFds(sockets: seq<Socket>, ready: set<int>, n: nat): seq<int>
    requires n <= |sockets|
  {
    if n == 0 then []
    else ReadyFds(sockets, ready, n - 1) + (if sockets[n - 1].fd in ready then [sockets[n - 1].fd] else [])
  }

  /** The sockets among the first `n` that the turn drops. */
  function DroppedBefore(sockets: seq<Socket>, t: Turn, n: nat): set<int>
    requires n <= |sockets|
  {
    set i | 0 <= i < n && sockets[i].fd in t.ready && Drops(t.received(sockets[i].fd)) :: sockets[i].fd
  }

  // ----- counting what is ready -----

  ghost function ReadySet(sockets: seq<Socket>, ready: set<int>, n: nat): set<int>
    requires n <= |sockets|
  {
    set i | 0 <= i < n && sockets[i].fd in ready :: sockets[i].fd
  }

  lemma SubsetSize<T>(a: set<T>, b: set<T>)
    requires a <= b
    ensures |a| <= |b| && (|a| == |b| ==> a == b)
  {
    assert b == a + (b - a);
    assert |b| == |a| + |b - a|;
  }

  lemma ReadySetStep(sockets: seq<Socket>, ready: set<int>, n: nat)
    requires n < |sockets| && Ascending(sockets)
    ensures var before, fd := ReadySet(sockets, ready, n), sockets[n].fd;
      fd !in before && ReadySet(sockets, ready, n + 1) == before + (if fd in ready then {fd} else {})
  {
  }

  lemma ReadySetWithin(sockets: seq<Socket>, ready: set<int>, n: nat)
    requires n <= |sockets|
    ensures ReadySet(sockets, ready, n) <= ready * Keys(sockets)
  {
  }

  lemma {:induction false} ReadySetSize(sockets: seq<Socket>, ready: set<int>, n: nat)
    requires n <= |sockets| && Ascending(sockets)
    ensures |ReadyFds(sockets, ready, n)| == |ReadySet(sockets, ready, n)| <= |ready * Keys(sockets)|
    ensures |ReadyFds(sockets, ready, n)| == |ready * Keys(sockets)| ==>
      ReadySet(sockets, ready, n) == ready * Keys(sockets)
  {
    hide Ascending, Keys;
    if n > 0 {
      ReadySetSize(sockets, ready, n - 1);
      ReadySetStep(sockets, ready, n - 1);
    }
    ReadySetWithin(sockets, ready, n);
    SubsetSize(ReadySet(sockets, ready, n), ready * Keys(sockets));
  }

  lemma ReadyStep(sockets: seq<Socket>, ready: set<int>, n: nat)
    requires n < |sockets|
    ensures ReadyFds(sockets, ready, n + 1) ==
      (if sockets[n].fd in ready then ReadyFds(sockets, ready, n) + [sockets[n].fd] else ReadyFds(sockets, ready, n))
  {
  }

  lemma EventsStep(callbacks: Callbacks, sockets: seq<Socket>, t: Turn, n: nat)
    requires n < |sockets|
    ensures var fd := sockets[n].fd;
      ServeEvents(callbacks, sockets, t, n + 1) ==
        if fd in t.ready
        then ServeEvents(callbacks, sockets, t, n) + EventsOf(callbacks, fd, sockets[n].address, t.received(fd))
        else ServeEvents(callbacks, sockets, t, n)
  {
    hide EventsOf;
  }

  lemma DroppedStep(sockets: seq<Socket>, t: Turn, n: nat)
    requires n < |sockets|
    ensures var fd := sockets[n].fd;
      DroppedBefore(sockets, t, n + 1) ==
        DroppedBefore(sockets, t, n) + (if fd in t.ready && Drops(t.received(fd)) then {fd} else {})
  {
  }

  lemma NotYetQueued(sockets: seq<Socket>, t: Turn, n: nat, queue: seq<int>)
    requires n < |sockets| && Ascending(sockets) && Elements(queue) == DroppedBefore(sockets, t, n)
    ensures sockets[n].fd !in queue && sockets[n].fd in Keys(sockets)
  {
    assert forall i :: 0 <= i < |queue| ==> queue[i] in Elements(queue);
  }

  /**
   When as many sockets are served as are ready, or the map is at its end, the rest of the map has nothing
   to serve.
   */
  lemma {:induction false} AllServed(callbacks: Callbacks, sockets: seq<Socket>, t: Turn, n: nat)
    requires n <= |sockets| && Ascending(sockets)
    requires n == |sockets| || ReadySet(sockets, t.ready, n) == t.ready * Keys(sockets)
    ensures ReadyFds(sockets, t.ready, n) == ReadyFds(sockets, t.ready, |sockets|)
    ensures ServeEvents(callbacks, sockets, t, n) == ServeEvents(callbacks, sockets, t, |sockets|)
    ensures DroppedBefore(sockets, t, n) == DropSet(Keys(sockets), t)
    decreases |sockets| - n
  {
    if n < |sockets| {
      NotReadyBehind(sockets, t, n);
      AllServed(callbacks, sockets, t, n + 1);
      DroppedStep(sockets, t, n);
      ReadyStep(sockets, t.ready, n);
      EventsStep(callbacks, sockets, t, n);
      hide ServeEvents, ReadyFds, Ascending, DroppedBefore, DropSet, Keys, ReadySet;
      assert DroppedBefore(sockets, t, n) + {} == DroppedBefore(sockets, t, n);
    }
  }

  lemma NotReadyBehind(sockets: seq<Socket>, t: Turn, n: nat)
    requires n < |sockets| && Ascending(sockets) && ReadySet(sockets, t.ready, n) == t.ready * Keys(sockets)
    ensures sockets[n].fd !in t.ready && ReadySet(sockets, t.ready, n + 1) == t.ready * Keys(sockets)
  {
    ReadySetStep(sockets, t.ready, n);
    hide Ascending, ReadySet;
    assert sockets[n].fd in Keys(sockets);
  }

  /** What the loop over the map changes. */
  datatype Tally = Tally(served: seq<int>, events: seq<Handler.Event>, queue: seq<int>, watched: set<int>)
  {
    /** After one more ready socket. */
    function Serving(callbacks: Callbacks, sock: Socket, x: Received): Tally {
      Tally(served + [sock.fd], events + EventsOf(callbacks, sock.fd, sock.address, x),
        if Drops(x) then queue + [sock.fd] else queue, if Drops(x) then watched - {sock.fd} else watched)
    }
  }

  /** What the loop has done behind the first `n` sockets: whom it served, queued, no longer watches, what it told. */
  ghost predicate ServedSoFar(callbacks: Callbacks, sockets: seq<Socket>, t: Turn, n: nat, start: Tally, now: Tally)
    requires n <= |sockets|
  {
    && now.served == start.served + ReadyFds(sockets, t.ready, n)
    && now.events == start.events + ServeEvents(callbacks, sockets, t, n)
    && Elements(now.queue) == DroppedBefore(sockets, t, n) && Distinct(now.queue)
    && now.watched == start.watched - Elements(now.queue)
  }

  lemma ServedNothing(callbacks: Callbacks, sockets: seq<Socket>, t: Turn, start: Tally)
    ensures start.queue == [] ==> ServedSoFar(callbacks, sockets, t, 0, start, start)
    ensures ReadyFds(sockets, t.ready, 0) == []
  {
  }

  lemma ServedOneMore(callbacks: Callbacks, sockets: seq<Socket>, t: Turn, n: nat, start: Tally, now: Tally)
    requires n < |sockets| && Ascending(sockets) && ServedSoFar(callbacks, sockets, t, n, start, now)
    ensures sockets[n].fd in Keys(sockets)
    ensures var fd := sockets[n].fd;
      if fd !in t.ready then
        && ReadyFds(sockets, t.ready, n + 1) == ReadyFds(sockets, t.ready, n)
        && ServedSoFar(callbacks, sockets, t, n + 1, start, now)
      else
        && |ReadyFds(sockets, t.ready, n + 1)| == |ReadyFds(sockets, t.ready, n)| + 1
        && ServedSoFar(callbacks, sockets, t, n + 1, start, now.Serving(callbacks, sockets[n], t.received(fd)))
  {
    hide ReadyFds, DroppedBefore, Elements, Distinct, Ascending, Keys, ServeEvents, EventsOf;
    var fd := sockets[n].fd;
    ReadyStep(sockets, t.ready, n);
    EventsStep(callbacks, sockets, t, n);
    DroppedStep(sockets, t, n);
    NotYetQueued(sockets, t, n, now.queue);
    Queued(now.queue, fd);
    Regroup(start.served, ReadyFds(sockets, t.ready, n), [fd]);
    Regroup(start.events, ServeEvents(callbacks, sockets, t, n),
      EventsOf(callbacks, fd, sockets[n].address, t.received(fd)));
    assert DroppedBefore(sockets, t, n) + {} == DroppedBefore(sockets, t, n);
    assert start.watched - (Elements(now.queue) + {fd}) == start.watched - Elements(now.queue) - {fd};
  }

  lemma ServedAll(callbacks: Callbacks, sockets: seq<Socket>, t: Turn, n: nat, start: Tally, now: Tally)
    requires n <= |sockets| && ServedSoFar(callbacks, sockets, t, n, start, now)
    requires ReadyFds(sockets, t.ready, n) == ReadyFds(sockets, t.ready, |sockets|)
    requires ServeEvents(callbacks, sockets, t, n) == ServeEvents(callbacks, sockets, t, |sockets|)
    requires DroppedBefore(sockets, t, n) == DropSet(Keys(sockets), t)
    ensures now.served == start.served + ReadyFds(sockets, t.ready, |sockets|)
    ensures now.events == start.events + ServeEvents(callbacks, sockets, t, |sockets|)
    ensures Elements(now.queue) == DropSet(Keys(sockets), t) && Distinct(now.queue)
    ensures now.watched == start.watched - Elements(now.queue)
  {
  }

  /** A socket accepted in this turn is not among those that `select` reported before it existed. */
  lemma ReadyAreOld(server: int, keys: set<int>, t: Turn, count: nat)
    requires Contract(server, {server} + keys, t) && server !in keys && t.r > 0 && count == Left(server, t)
    ensures var keys' := if server in t.ready then keys + {t.accepted} else keys;
      && |t.ready * keys'| == count
      && forall fd :: fd in keys' && fd in t.ready ==> fd in keys
  {
    var keys' := if server in t.ready then keys + {t.accepted} else keys;
    assert t.ready * keys' == t.ready - {server};
  }

  // ----- the loop -----

  class Application {
    const serverSocket: int
    const callbacks: Callbacks
    const mgr: ConnectionMgr
    var watched: set<int>
    var served: seq<int>
    var events: seq<Handler.Event>

    /**
     At the loop head nothing waits to be closed, and `select` watches the server socket and exactly the
     open sockets.
     */
    ghost predicate AtHead()
      reads this, mgr
    {
      && mgr.Valid() && mgr.queue == []
      && watched == {serverSocket} + Keys(mgr.sockets)
      && serverSocket !in Keys(mgr.sockets)
    }

    ghost function Now(): Tally
      reads this, mgr
    {
      Tally(served, events, mgr.queue, watched)
    }

    constructor (serverSocket: int, callbacks: Callbacks)
      ensures AtHead() && fresh(mgr) && mgr.sockets == []
      ensures this.serverSocket == serverSocket && this.callbacks == callbacks && served == [] && events == []
    {
      this.serverSocket, this.callbacks := serverSocket, callbacks;
      mgr := new ConnectionMgr();
      watched, served, events := {serverSocket}, [], [];
    }

    /** The first argument of `select`. */
    method HighestDescriptor() returns (nfds: int)
      requires AtHead()
      ensures Exceeds(nfds, watched)
      ensures nfds - 1 in watched || nfds == 1
    {
      var highest := mgr.GetHighestFd();
      nfds := (if highest > serverSocket then highest else serverSocket) + 1;
    }

    method Accept(t: Turn)
      requires AtHead() && t.accepted != serverSocket && serverSocket in t.ready
      modifies this, mgr
      ensures AtHead() && Keys(mgr.sockets) == old(Keys(mgr.sockets)) + {t.accepted}
      ensures mgr.sockets == WithAccepted(serverSocket, old(mgr.sockets), t)
      ensures served == old(served)
      ensures events == old(events) + AcceptEvents(serverSocket, callbacks, t)
    {
      mgr.AddSocket(Socket(t.accepted, t.peer));
      if callbacks.onConnect {
        events := events + [Handler.Event(Handler.EVENT_CONNECT, t.accepted, t.peer, 0, 0, 0)];
      }
      watched := watched + {t.accepted};
    }

    /** What one ready socket does to the queues. */
    method Serve(sock: Socket, x: Received)
      requires mgr.Valid() && sock.fd in Keys(mgr.sockets)
      modifies this, mgr`queue
      ensures mgr.Valid()
      ensures Now() == old(Now()).Serving(callbacks, sock, x)
    {
      match x {
        case Closed =>
          mgr.CloseSocketByFd(sock.fd);
          watched := watched - {sock.fd};
          if callbacks.onDisconnect {
            events := events + [Handler.Event(Handler.EVENT_DISCONNECT, sock.fd, sock.address, 0, 0, 0)];
          }
        case Data(buffer, length, errno) =>
          if callbacks.onReceive {
            events := events + [Handler.Event(Handler.EVENT_RECIEVE, sock.fd, sock.address, buffer, length, errno)];
          }
        case BadDescriptor =>
          watched := watched - {sock.fd};
          mgr.CloseSocketByFd(sock.fd);
        case OtherError =>
      }
      served := served + [sock.fd];
    }

    /**
     The loop over the map. Closing is deferred, so the map does not change under it; it stops as soon as
     as many sockets were served as `select` counted, and by then those are all the ready ones.
     */
    method ServeReady(t: Turn, count: nat)
      requires AtHead() && count > 0
      requires |t.ready * Keys(mgr.sockets)| == count
      modifies this, mgr`queue
      ensures mgr.Valid() && mgr.QueuedOnce()
      ensures served == old(served) + ReadyFds(mgr.sockets, t.ready, |mgr.sockets|)
      ensures events == old(events) + ServeEvents(callbacks, mgr.sockets, t, |mgr.sockets|)
      ensures Elements(mgr.queue) == DropSet(Keys(mgr.sockets), t)
      ensures watched == old(watched) - Elements(mgr.queue)
    {
      hide ReadyFds, ReadySet, DroppedBefore, EventsOf, ServeEvents, Elements, Keys, Ascending, Drops, Distinct;
      hide ServedSoFar, Tally.Serving;
      ghost var sockets, start := mgr.sockets, Now();
      ServedNothing(callbacks, sockets, t, start);
      var it, r := 0, count;
      while it < |mgr.sockets| && r != 0
        invariant mgr.Valid() && mgr.sockets == sockets
        invariant it <= |sockets|
        invariant r == count - |ReadyFds(sockets, t.ready, it)| && r >= 0
        invariant ServedSoFar(callbacks, sockets, t, it, start, Now())
      {
        var sock := mgr.sockets[it];
        ReadySetSize(sockets, t.ready, it + 1);
        ServedOneMore(callbacks, sockets, t, it, start, Now());
        if sock.fd in t.ready {
          Serve(sock, t.received(sock.fd));
          r := r - 1;
        }
        it := it + 1;
      }
      ReadySetSize(sockets, t.ready, it);
      AllServed(callbacks, sockets, t, it);
      ServedAll(callbacks, sockets, t, it, start, Now());
    }

    /** The rest of a turn: serve what is ready, then close what was queued. */
    method ServeAndClose(t: Turn, r: int)
      requires AtHead() && (r > 0 ==> |t.ready * Keys(mgr.sockets)| == r)
      modifies this, mgr
      ensures AtHead()
      ensures mgr.sockets ==
        if r > 0 then Without(old(mgr.sockets), DropSet(Keys(old(mgr.sockets)), t)) else old(mgr.sockets)
      ensures Keys(mgr.sockets) == old(Keys(mgr.sockets)) - (if r > 0 then DropSet(old(Keys(mgr.sockets)), t) else {})
      ensures served == old(served) + (if r > 0 then ReadyFds(old(mgr.sockets), t.ready, |old(mgr.sockets)|) else [])
      ensures events == old(events) +
        (if r > 0 then ServeEvents(callbacks, old(mgr.sockets), t, |old(mgr.sockets)|) else [])
    {
      hide Keys, Ascending, ReadyFds, DropSet, ServeEvents, Without;
      ghost var keys := Keys(mgr.sockets);
      NoElements(mgr.queue);
      WithoutNone(mgr.sockets);
      if r > 0 {
        ServeReady(t, r);
        DropBoth(serverSocket, keys, t);
      }
      mgr.CloseAllPendingSockets();
      NoElements(mgr.queue);
    }

    /** One turn of the loop. */
    method TakeTurn(t: Turn) returns (nfds: int)
      requires AtHead() && Contract(serverSocket, watched, t)
      modifies this, mgr
      ensures AtHead()
      ensures Exceeds(nfds, old(watched))
      ensures mgr.sockets == NextSockets(serverSocket, old(mgr.sockets), t)
      ensures Keys(mgr.sockets) == NextKeys(serverSocket, old(Keys(mgr.sockets)), t)
      ensures events == old(events) + TurnEvents(serverSocket, callbacks, old(mgr.sockets), t)
    {
      hide Keys, Ascending, NextKeys, DropSet, ReadyFds, ServeEvents, Without, Exceeds;
      hide NextSockets, TurnEvents, WithAccepted, AcceptEvents;
      nfds := HighestDescriptor();
      ghost var sockets := mgr.sockets;
      KeysAfter(serverSocket, Keys(sockets), t);
      TurnParts(serverSocket, callbacks, sockets, t);
      var r := t.r;
      if r == 0 {
        return;
      }
      if serverSocket in t.ready {
        r := r - 1;
        if t.accepted == -1 {
          return;
        }
        Accept(t);
      }
      if r > 0 {
        ReadyAreOld(serverSocket, Keys(sockets), t, r);
      }
      Regroup(old(events), AcceptEvents(serverSocket, callbacks, t),
        if r > 0 then ServeEvents(callbacks, mgr.sockets, t, |mgr.sockets|) else []);
      ServeAndClose(t, r);
    }
  }

  /** The ways through a turn, for the map and for the events. */
  lemma TurnParts(server: int, callbacks: Callbacks, sockets: seq<Socket>, t: Turn)
    ensures !Proceeds(server, t) ==>
      NextSockets(server, sockets, t) == sockets && TurnEvents(server, callbacks, sockets, t) == []
    ensures server !in t.ready ==>
      WithAccepted(server, sockets, t) == sockets && AcceptEvents(server, callbacks, t) == []
    ensures Proceeds(server, t) ==>
      var accepted := WithAccepted(server, sockets, t);
      && NextSockets(server, sockets, t) ==
           (if Left(server, t) > 0 then Without(accepted, DropSet(Keys(accepted), t)) else accepted)
      && TurnEvents(server, callbacks, sockets, t) ==
           AcceptEvents(server, callbacks, t) +
           (if Left(server, t) > 0 then ServeEvents(callbacks, accepted, t, |accepted|) else [])
  {
  }

  lemma DropBoth(server: int, keys: set<int>, t: Turn)
    requires server !in keys
    ensures {server} + keys - DropSet(keys, t) == {server} + (keys - DropSet(keys, t))
  {
  }

  /** The four ways through a turn. */
  lemma KeysAfter(server: int, keys: set<int>, t: Turn)
    requires Contract(server, {server} + keys, t) && server !in keys
    ensures t.r == 0 || (server in t.ready && t.accepted == -1) ==> NextKeys(server, keys, t) == keys
    ensures Proceeds(server, t) ==>
      var keys' := if server in t.ready then keys + {t.accepted} else keys;
      NextKeys(server, keys, t) == keys' - (if Left(server, t) > 0 then DropSet(keys', t) else {})
  {
    if Proceeds(server, t) && Left(server, t) > 0 {
      ReadyAreOld(server, keys, t, Left(server, t));
    }
  }

  ghost predicate Exceeds(n: int, fds: set<int>) {
    forall x :: x in fds ==> x < n
  }

  lemma NoTurns(server: int, callbacks: Callbacks, sockets: seq<Socket>, turns: seq<Turn>)
    ensures sockets == [] ==> Keys(sockets) == RunKeys(server, turns[..0])
    ensures RunSockets(server, turns[..0]) == [] && RunEvents(server, callbacks, turns[..0]) == []
  {
  }

  lemma NextTurn(server: int, callbacks: Callbacks, turns: seq<Turn>, i: nat)
    requires i < |turns|
    ensures RunKeys(server, turns[..i + 1]) == NextKeys(server, RunKeys(server, turns[..i]), turns[i])
    ensures RunSockets(server, turns[..i + 1]) == NextSockets(server, RunSockets(server, turns[..i]), turns[i])
    ensures RunEvents(server, callbacks, turns[..i + 1]) ==
      RunEvents(server, callbacks, turns[..i]) +
      TurnEvents(server, callbacks, RunSockets(server, turns[..i]), turns[i])
  {
    hide NextKeys, NextSockets, TurnEvents;
    assert turns[..i + 1][..i] == turns[..i];
  }

  ghost predicate AllContracts(server: int, turns: seq<Turn>) {
    forall i :: 0 <= i < |turns| ==> Contract(server, {server} + RunKeys(server, turns[..i]), turns[i])
  }

  /**
   Over any run of the loop: after every turn the watched set is the server socket and the open sockets,
   nothing is left to close, the map and the events are those the turns make one after the other, and every
   turn's first argument to `select` exceeded all it watched.
   */
  method Update(server: int, callbacks: Callbacks, turns: seq<Turn>)
      returns (watched: set<int>, queue: seq<int>, sockets: seq<Socket>, events: seq<Handler.Event>, nfds: seq<int>)
    requires AllContracts(server, turns)
    ensures watched == {server} + Keys(sockets) && server !in Keys(sockets) && queue == []
    ensures Ascending(sockets) && sockets == RunSockets(server, turns) && Keys(sockets) == RunKeys(server, turns)
    ensures events == RunEvents(server, callbacks, turns)
    ensures |nfds| == |turns|
    ensures forall i :: 0 <= i < |turns| ==> Exceeds(nfds[i], {server} + RunKeys(server, turns[..i]))
  {
    hide NextKeys, RunKeys, NextSockets, RunSockets, TurnEvents, RunEvents, Contract, Keys, Ascending, Exceeds;
    var app := new Application(server, callbacks);
    nfds := [];
    NoTurns(server, callbacks, app.mgr.sockets, turns);
    for i := 0 to |turns|
      invariant app.AtHead() && fresh(app) && fresh(app.mgr)
      invariant app.serverSocket == server && app.callbacks == callbacks
      invariant app.mgr.sockets == RunSockets(server, turns[..i])
      invariant Keys(app.mgr.sockets) == RunKeys(server, turns[..i])
      invariant app.events == RunEvents(server, callbacks, turns[..i])
      invariant |nfds| == i
      invariant forall k :: 0 <= k < i ==> Exceeds(nfds[k], {server} + RunKeys(server, turns[..k]))
    {
      NextTurn(server, callbacks, turns, i);
      var n := app.TakeTurn(turns[i]);
      nfds := nfds + [n];
    }
    assert turns[..|turns|] == turns;
    watched, queue, sockets, events := app.watched, app.mgr.queue, app.mgr.sockets, app.events;
  }
}
