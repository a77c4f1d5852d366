/**
 All that the receive loop tells the protocol library about one descriptor, over any run: who connected, what
 was received and from where, and who is gone.
 */
module LibraryEvents {
  import opened Basics
  import opened SocketMgr
  import opened MainLoop
  import opened LibraryView
  import Handler

  // ----- the events of one descriptor -----

  function EventsFor(events: seq<Handler.Event>, fd: int): seq<Handler.Event> {
    if events == [] then []
    else
      var last := events[|events| - 1];
      EventsFor(events[..|events| - 1], fd) + (if last.fd == fd then [last] else [])
  }

  lemma {:induction false} EventsForBoth(a: seq<Handler.Event>, b: seq<Handler.Event>, fd: int)
    ensures EventsFor(a + b, fd) == EventsFor(a, fd) + EventsFor(b, fd)
  {
    if b == [] {
      assert a + b == a;
    } else {
      assert (a + b)[..|a + b| - 1] == a + b[..|b| - 1];
      EventsForBoth(a, b[..|b| - 1], fd);
    }
  }

  lemma EventsForFew(events: seq<Handler.Event>, fd: int)
    requires |events| <= 1
    ensures EventsFor(events, fd) == if events != [] && events[0].fd == fd then events else []
  {
    if events != [] {
      assert events[..0] == [];
    }
  }

  // ----- what is told -----

  /** The turn gets to an open socket that is ready. */
  predicate Reaches(server: int, keys: set<int>, t: Turn, fd: int) {
    t.r > 0 && (server in t.ready ==> t.accepted != -1) && fd in keys && fd in t.ready
  }

  /** The address of the peer that the open socket of `fd` was accepted from. */
  function AcceptedFrom(server: int, turns: seq<Turn>, fd: int): nat {
    if turns == [] then 0
    else
      var before, t := turns[..|turns| - 1], turns[|turns| - 1];
      if Accepts(server, t) && t.accepted == fd && fd !in RunKeys(server, before) then t.peer
      else AcceptedFrom(server, before, fd)
  }

  function ConnectTold(server: int, callbacks: Callbacks, t: Turn, fd: int): seq<Handler.Event> {
    if Accepts(server, t) && t.accepted == fd && callbacks.onConnect
    then [Handler.Event(Handler.EVENT_CONNECT, fd, t.peer, 0, 0, 0)] else []
  }

  /** What a turn tells of an open descriptor: the data it received or that its peer is gone. */
  function ReceiveTold(server: int, callbacks: Callbacks, keys: set<int>, address: nat, t: Turn, fd: int)
      : seq<Handler.Event> {
    if !Reaches(server, keys, t, fd) then []
    else if t.received(fd).Data? && callbacks.onReceive then
      var x := t.received(fd);
      [Handler.Event(Handler.EVENT_RECIEVE, fd, address, x.buffer, x.length, x.errno)]
    else if t.received(fd).Closed? && callbacks.onDisconnect then
      [Handler.Event(Handler.EVENT_DISCONNECT, fd, address, 0, 0, 0)]
    else []
  }

  function Told(server: int, callbacks: Callbacks, turns: seq<Turn>, fd: int): seq<Handler.Event> {
    if turns == [] then []
    else
      var before, t := turns[..|turns| - 1], turns[|turns| - 1];
      Told(server, callbacks, before, fd) + (ConnectTold(server, callbacks, t, fd) +
        ReceiveTold(server, callbacks, RunKeys(server, before), AcceptedFrom(server, before, fd), t, fd))
  }

  // ----- the map over runs -----

  lemma ContractsBefore(server: int, turns: seq<Turn>)
    requires turns != [] && AllContracts(server, turns)
    ensures var before := turns[..|turns| - 1];
      AllContracts(server, before) && Contract(server, {server} + RunKeys(server, before), turns[|turns| - 1])
  {
    hide Contract, RunKeys;
    var before := turns[..|turns| - 1];
    assert forall i :: 0 <= i <= |before| ==> before[..i] == turns[..i];
    assert forall i :: 0 <= i < |before| ==> before[i] == turns[i];
  }

  lemma NextKeysOfMap(server: int, sockets: seq<Socket>, t: Turn)
    requires Ascending(sockets) && server !in Keys(sockets) && Contract(server, {server} + Keys(sockets), t)
    ensures Ascending(NextSockets(server, sockets, t))
    ensures Keys(NextSockets(server, sockets, t)) == NextKeys(server, Keys(sockets), t)
    ensures server !in Keys(NextSockets(server, sockets, t))
  {
    var accepted := WithAccepted(server, sockets, t);
    AcceptedKeys(server, sockets, t);
    WithoutKeepsOrder(accepted, DropSet(Keys(accepted), t));
    KeysAfter(server, Keys(sockets), t);
    hide Ascending, Keys, NextKeys, WithAccepted, Without, DropSet;
    assert Keys(sockets) + {} == Keys(sockets) && Keys(accepted) - {} == Keys(accepted);
  }

  lemma {:induction false} KeysOfRun(server: int, turns: seq<Turn>)
    requires AllContracts(server, turns)
    ensures Ascending(RunSockets(server, turns)) && Keys(RunSockets(server, turns)) == RunKeys(server, turns)
    ensures server !in RunKeys(server, turns)
  {
    if turns != [] {
      hide AllContracts, Ascending, Keys, Contract, NextKeys, NextSockets;
      ContractsBefore(server, turns);
      KeysOfRun(server, turns[..|turns| - 1]);
      NextKeysOfMap(server, RunSockets(server, turns[..|turns| - 1]), turns[|turns| - 1]);
    }
  }

  /** A socket behind a turn was there before, or was accepted in it. */
  lemma NextMembers(server: int, sockets: seq<Socket>, t: Turn, x: Socket)
    requires x in NextSockets(server, sockets, t)
    ensures x in sockets || (Accepts(server, t) && x == Socket(t.accepted, t.peer) && t.accepted !in Keys(sockets))
  {
    var accepted := WithAccepted(server, sockets, t);
    InsertMembers(sockets, Socket(t.accepted, t.peer), x);
    WithoutMembers(accepted, DropSet(Keys(accepted), t), x);
    hide Insert, Without, DropSet, Keys;
  }

  /** Over every run, each socket in the map has the address it was accepted from. */
  lemma {:induction false} AddressesKept(server: int, turns: seq<Turn>)
    requires AllContracts(server, turns)
    ensures forall x :: x in RunSockets(server, turns) ==> x.address == AcceptedFrom(server, turns, x.fd)
  {
    if turns != [] {
      hide AllContracts, Keys, NextSockets, Accepts, Contract, RunKeys;
      var before, t := turns[..|turns| - 1], turns[|turns| - 1];
      ContractsBefore(server, turns);
      AddressesKept(server, before);
      KeysOfRun(server, before);
      forall x | x in RunSockets(server, turns)
        ensures x.address == AcceptedFrom(server, turns, x.fd)
      {
        NextMembers(server, RunSockets(server, before), t, x);
        if x in RunSockets(server, before) {
          MemberKey(RunSockets(server, before), x);
        }
      }
    }
  }

  lemma MemberKey(sockets: seq<Socket>, x: Socket)
    requires x in sockets
    ensures x.fd in Keys(sockets)
  {
  }

  // ----- the loop over the map -----

  lemma OwnPosition(sockets: seq<Socket>, i: nat, fd: int, p: nat)
    requires i < |sockets| && Ascending(sockets) && (p < |sockets| ==> sockets[p].fd == fd)
    requires p >= |sockets| ==> fd !in Keys(sockets)
    ensures sockets[i].fd == fd <==> p == i
  {
    assert sockets[i].fd in Keys(sockets);
  }

  /** The loop tells of one descriptor only where it gets to its socket. */
  lemma {:induction false} ServeFor(callbacks: Callbacks, sockets: seq<Socket>, t: Turn, n: nat, fd: int, p: nat)
    requires n <= |sockets| && Ascending(sockets) && (p < |sockets| ==> sockets[p].fd == fd)
    requires p >= |sockets| ==> fd !in Keys(sockets)
    ensures EventsFor(ServeEvents(callbacks, sockets, t, n), fd) ==
      if p < n && fd in t.ready then EventsOf(callbacks, fd, sockets[p].address, t.received(fd)) else []
  {
    hide Keys, Ascending, EventsFor, EventsOf;
    if n == 0 {
      EventsForFew([], fd);
    } else {
      var sock := sockets[n - 1];
      ServeFor(callbacks, sockets, t, n - 1, fd, p);
      OwnPosition(sockets, n - 1, fd, p);
      var more := if sock.fd in t.ready then EventsOf(callbacks, sock.fd, sock.address, t.received(sock.fd)) else [];
      EventsForBoth(ServeEvents(callbacks, sockets, t, n - 1), more, fd);
      if sock.fd in t.ready {
        EventsAreOwn(callbacks, sock.fd, sock.address, t.received(sock.fd), fd);
      } else {
        EventsForFew([], fd);
      }
    }
  }

  lemma EventsAreOwn(callbacks: Callbacks, own: int, address: nat, x: Received, fd: int)
    ensures var events := EventsOf(callbacks, own, address, x);
      EventsFor(events, fd) == if own == fd then events else []
  {
    EventsForFew(EventsOf(callbacks, own, address, x), fd);
    hide EventsFor;
  }

  /** The socket of a descriptor that the loop gets to is one from before the turn. */
  lemma ReachedInMap(server: int, sockets: seq<Socket>, t: Turn, fd: int)
    requires Ascending(sockets) && server !in Keys(sockets) && Contract(server, {server} + Keys(sockets), t)
    ensures Reaches(server, Keys(sockets), t, fd) <==>
      && Proceeds(server, t) && Left(server, t) > 0
      && fd in Keys(WithAccepted(server, sockets, t)) && fd in t.ready
  {
    AcceptedKeys(server, sockets, t);
    hide Ascending, WithAccepted, Keys;
    if t.r > 0 && fd in Keys(sockets) && fd in t.ready && server in t.ready {
      assert {fd, server} <= t.ready;
      SubsetSize({fd, server}, t.ready);
    }
    if Proceeds(server, t) && Left(server, t) > 0 {
      ReadyAreOld(server, Keys(sockets), t, Left(server, t));
    }
  }

  lemma SocketStays(server: int, sockets: seq<Socket>, t: Turn, x: Socket)
    requires x in sockets
    ensures x in WithAccepted(server, sockets, t)
  {
    InsertMembers(sockets, Socket(t.accepted, t.peer), x);
    hide Insert;
  }

  lemma PositionOf(sockets: seq<Socket>, fd: int) returns (p: nat)
    ensures p < |sockets| ==> sockets[p].fd == fd
    ensures p >= |sockets| ==> fd !in Keys(sockets)
  {
    p := Position(sockets, fd);
  }

  lemma SameSocket(sockets: seq<Socket>, p: nat, x: Socket)
    requires Ascending(sockets) && p < |sockets| && x in sockets && sockets[p].fd == x.fd
    ensures sockets[p] == x
  {
  }

  /** What a turn tells of a descriptor whose socket, if it is open, has this address. */
  lemma TurnTold(server: int, callbacks: Callbacks, sockets: seq<Socket>, address: nat, t: Turn, fd: int)
    requires Ascending(sockets) && server !in Keys(sockets) && Contract(server, {server} + Keys(sockets), t)
    requires fd in Keys(sockets) ==> Socket(fd, address) in sockets
    ensures EventsFor(TurnEvents(server, callbacks, sockets, t), fd) ==
      ConnectTold(server, callbacks, t, fd) + ReceiveTold(server, callbacks, Keys(sockets), address, t, fd)
  {
    hide TurnEvents, ServeEvents, WithAccepted, AcceptEvents, EventsFor, Keys, Ascending, Contract, Reaches;
    hide Proceeds, Left;
    TurnParts(server, callbacks, sockets, t);
    ReachedInMap(server, sockets, t, fd);
    ConnectIsTold(server, callbacks, t, fd);
    EventsForFew([], fd);
    if Proceeds(server, t) {
      var first, accepted := AcceptEvents(server, callbacks, t), WithAccepted(server, sockets, t);
      var rest := if Left(server, t) > 0 then ServeEvents(callbacks, accepted, t, |accepted|) else [];
      EventsForBoth(first, rest, fd);
      if Left(server, t) > 0 {
        ServedTold(server, callbacks, sockets, address, t, fd);
      }
    } else {
      var none: seq<Handler.Event> := [];
      assert none + none == none;
    }
  }

  lemma ConnectIsTold(server: int, callbacks: Callbacks, t: Turn, fd: int)
    ensures Proceeds(server, t) ==>
      EventsFor(AcceptEvents(server, callbacks, t), fd) == ConnectTold(server, callbacks, t, fd)
    ensures !Proceeds(server, t) ==> ConnectTold(server, callbacks, t, fd) == []
  {
    EventsForFew(AcceptEvents(server, callbacks, t), fd);
    hide EventsFor;
  }

  lemma ServedTold(server: int, callbacks: Callbacks, sockets: seq<Socket>, address: nat, t: Turn, fd: int)
    requires Ascending(sockets) && server !in Keys(sockets) && Contract(server, {server} + Keys(sockets), t)
    requires fd in Keys(sockets) ==> Socket(fd, address) in sockets
    requires Proceeds(server, t) && Left(server, t) > 0
    ensures var accepted := WithAccepted(server, sockets, t);
      EventsFor(ServeEvents(callbacks, accepted, t, |accepted|), fd) ==
        ReceiveTold(server, callbacks, Keys(sockets), address, t, fd)
  {
    hide ServeEvents, WithAccepted, EventsFor, Keys, Ascending, Contract, Proceeds, Left;
    var accepted := WithAccepted(server, sockets, t);
    AcceptedKeys(server, sockets, t);
    ReachedInMap(server, sockets, t, fd);
    var p := PositionOf(accepted, fd);
    ServeFor(callbacks, accepted, t, |accepted|, fd, p);
    if p < |accepted| && fd in t.ready {
      MemberKey(accepted, accepted[p]);
      assert fd in Keys(sockets);
      SocketStays(server, sockets, t, Socket(fd, address));
      SameSocket(accepted, p, Socket(fd, address));
    }
  }

  // ----- whole runs -----

  lemma KeyHasSocket(sockets: seq<Socket>, fd: int) returns (x: Socket)
    requires fd in Keys(sockets)
    ensures x in sockets && x.fd == fd
  {
    x := sockets[Position(sockets, fd)];
  }

  /**
   Over every run: the events that the loop enqueues about a descriptor are, in order, a connect for each
   accept of it, the data of each receive while its socket was open, and a disconnect for each time its peer
   was found gone, the last two with the address the socket was accepted from.
   */
  lemma {:induction false} EventsAreTold(server: int, callbacks: Callbacks, turns: seq<Turn>, fd: int)
    requires AllContracts(server, turns)
    ensures EventsFor(RunEvents(server, callbacks, turns), fd) == Told(server, callbacks, turns, fd)
  {
    if turns != [] {
      hide AllContracts, TurnEvents, EventsFor, Keys, Ascending, Contract, NextSockets, NextKeys, ConnectTold;
      hide ReceiveTold, AcceptedFrom;
      var before, t := turns[..|turns| - 1], turns[|turns| - 1];
      var sockets := RunSockets(server, before);
      ContractsBefore(server, turns);
      EventsAreTold(server, callbacks, before, fd);
      KeysOfRun(server, before);
      AddressesKept(server, before);
      if fd in Keys(sockets) {
        var x := KeyHasSocket(sockets, fd);
        assert x == Socket(fd, AcceptedFrom(server, before, fd));
      }
      TurnTold(server, callbacks, sockets, AcceptedFrom(server, before, fd), t, fd);
      EventsForBoth(RunEvents(server, callbacks, before), TurnEvents(server, callbacks, sockets, t), fd);
    }
  }

  // ----- what was received -----

  /** What came in with one receive, and from where. */
  datatype Payload = Payload(address: nat, buffer: nat, length: int, errno: int)

  /** The payloads of the receive events of a descriptor. */
  function Payloads(events: seq<Handler.Event>, fd: int): seq<Payload> {
    if events == [] then []
    else
      var last := events[|events| - 1];
      Payloads(events[..|events| - 1], fd) +
        (if last.fd == fd && last.eventType == Handler.EVENT_RECIEVE
         then [Payload(last.address, last.data, last.received, last.errorcode)] else [])
  }

  /** The data results of the turns that got to the descriptor while its socket was open. */
  function Arrivals(server: int, turns: seq<Turn>, fd: int): seq<Payload> {
    if turns == [] then []
    else
      var before, t := turns[..|turns| - 1], turns[|turns| - 1];
      Arrivals(server, before, fd) +
        match t.received(fd)
        case Data(buffer, length, errno) =>
          if Reaches(server, RunKeys(server, before), t, fd)
          then [Payload(AcceptedFrom(server, before, fd), buffer, length, errno)] else []
        case _ => []
  }

  lemma {:induction false} PayloadsBoth(a: seq<Handler.Event>, b: seq<Handler.Event>, fd: int)
    ensures Payloads(a + b, fd) == Payloads(a, fd) + Payloads(b, fd)
  {
    if b == [] {
      assert a + b == a;
    } else {
      assert (a + b)[..|a + b| - 1] == a + b[..|b| - 1];
      PayloadsBoth(a, b[..|b| - 1], fd);
    }
  }

  lemma {:induction false} PayloadsOfOwn(events: seq<Handler.Event>, fd: int)
    ensures Payloads(EventsFor(events, fd), fd) == Payloads(events, fd)
  {
    if events != [] {
      var front, last := events[..|events| - 1], events[|events| - 1];
      PayloadsOfOwn(front, fd);
      if last.fd == fd {
        PayloadsBoth(EventsFor(front, fd), [last], fd);
        assert [last][..0] == [];
      } else {
        assert EventsFor(front, fd) + [] == EventsFor(front, fd);
      }
    }
  }

  lemma PayloadsOfTurn(server: int, callbacks: Callbacks, keys: set<int>, address: nat, t: Turn, fd: int)
    ensures Payloads(ConnectTold(server, callbacks, t, fd) +
                     ReceiveTold(server, callbacks, keys, address, t, fd), fd) ==
      if callbacks.onReceive && Reaches(server, keys, t, fd) && t.received(fd).Data?
      then [Payload(address, t.received(fd).buffer, t.received(fd).length, t.received(fd).errno)] else []
  {
    hide Reaches, Accepts;
    var a := ConnectTold(server, callbacks, t, fd);
    var b := ReceiveTold(server, callbacks, keys, address, t, fd);
    PayloadsBoth(a, b, fd);
    assert |a| <= 1 && |b| <= 1;
    assert a != [] ==> a[..0] == [];
    assert b != [] ==> b[..0] == [];
  }

  lemma {:induction false} PayloadsTold(server: int, callbacks: Callbacks, turns: seq<Turn>, fd: int)
    ensures Payloads(Told(server, callbacks, turns, fd), fd) ==
      if callbacks.onReceive then Arrivals(server, turns, fd) else []
  {
    if turns != [] {
      hide ConnectTold, ReceiveTold, Reaches, RunKeys, AcceptedFrom, Payloads;
      var before, t := turns[..|turns| - 1], turns[|turns| - 1];
      var keys, address := RunKeys(server, before), AcceptedFrom(server, before, fd);
      PayloadsTold(server, callbacks, before, fd);
      PayloadsBoth(Told(server, callbacks, before, fd),
        ConnectTold(server, callbacks, t, fd) + ReceiveTold(server, callbacks, keys, address, t, fd), fd);
      PayloadsOfTurn(server, callbacks, keys, address, t, fd);
    } else {
      assert Payloads([], fd) == [];
    }
  }

  /**
   Over every run: with a callback for data, the library is given exactly what arrived on each descriptor
   while its socket was open, in order, and with the address of the peer it was accepted from; without one,
   nothing.
   */
  lemma ReceivesExactly(server: int, callbacks: Callbacks, turns: seq<Turn>, fd: int)
    requires AllContracts(server, turns)
    ensures Payloads(RunEvents(server, callbacks, turns), fd) ==
      if callbacks.onReceive then Arrivals(server, turns, fd) else []
  {
    hide AllContracts, RunEvents, Told, Arrivals, Payloads, EventsFor;
    EventsAreTold(server, callbacks, turns, fd);
    PayloadsOfOwn(RunEvents(server, callbacks, turns), fd);
    PayloadsTold(server, callbacks, turns, fd);
  }
}
