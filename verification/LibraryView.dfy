/**
 What the events of the receive loop tell the protocol library: which descriptors it takes for connected,
 how that differs from the sockets that are open, and when a new connection meets an old session.
 */
module LibraryView {
  import opened Basics
  import opened SocketMgr
  import opened MainLoop
  import Handler

  /** Whether the library takes `fd` for connected after these events, when `open` tells whether it did before. */
  function Heard(open: bool, events: seq<Handler.Event>, fd: int): bool {
    if events == [] then open
    else
      var before, e := Heard(open, events[..|events| - 1], fd), events[|events| - 1];
      if e.fd != fd then before
      else if e.eventType == Handler.EVENT_CONNECT then true
      else if e.eventType == Handler.EVENT_DISCONNECT then false
      else before
  }

  lemma {:induction false} HeardTwice(open: bool, a: seq<Handler.Event>, b: seq<Handler.Event>, fd: int)
    ensures Heard(open, a + b, fd) == Heard(Heard(open, a, fd), b, fd)
  {
    if b == [] {
      assert a + b == a;
    } else {
      assert (a + b)[..|a + b| - 1] == a + b[..|b| - 1];
      HeardTwice(open, a, b[..|b| - 1], fd);
    }
  }

  // ----- one turn -----

  /** The turn accepts a connection. */
  predicate Accepts(server: int, t: Turn) {
    t.r != 0 && server in t.ready && t.accepted != -1
  }

  /** The turn drops the socket of `fd`. */
  predicate DropsFd(server: int, sockets: seq<Socket>, t: Turn, fd: int) {
    && t.r > (if server in t.ready then 1 else 0) && (server in t.ready ==> t.accepted != -1)
    && (fd in Keys(sockets) || (server in t.ready && fd == t.accepted))
    && fd in t.ready && (t.received(fd).Closed? || t.received(fd).BadDescriptor?)
  }

  /** What a receive on `fd` itself makes of the library's view. */
  lemma EventsHeard(callbacks: Callbacks, sock: Socket, x: Received, open: bool, fd: int)
    ensures Heard(open, EventsOf(callbacks, sock.fd, sock.address, x), fd) ==
      (open && !(sock.fd == fd && x.Closed? && callbacks.onDisconnect))
  {
    var events := EventsOf(callbacks, sock.fd, sock.address, x);
    if events != [] {
      assert |events| == 1 && events[..0] == [];
    }
  }

  /** The loop over the map ends `fd` for the library exactly when it finds it closed by its peer. */
  lemma {:induction false} ServeHeard(callbacks: Callbacks, sockets: seq<Socket>, t: Turn, n: nat, open: bool, fd: int)
    requires n <= |sockets|
    ensures Heard(open, ServeEvents(callbacks, sockets, t, n), fd) <==>
      open && !(fd in Keys(sockets[..n]) && fd in t.ready && t.received(fd).Closed? && callbacks.onDisconnect)
  {
    hide EventsOf;
    if n > 0 {
      var sock := sockets[n - 1];
      ServeHeard(callbacks, sockets, t, n - 1, open, fd);
      KeysOneMore(sockets, n - 1);
      hide Keys;
      if sock.fd in t.ready {
        var x := t.received(sock.fd);
        EventsHeard(callbacks, sock, x, Heard(open, ServeEvents(callbacks, sockets, t, n - 1), fd), fd);
        HeardTwice(open, ServeEvents(callbacks, sockets, t, n - 1), EventsOf(callbacks, sock.fd, sock.address, x), fd);
      } else {
        assert ServeEvents(callbacks, sockets, t, n - 1) + [] == ServeEvents(callbacks, sockets, t, n - 1);
      }
    }
  }

  lemma KeysOneMore(sockets: seq<Socket>, n: nat)
    requires n < |sockets|
    ensures Keys(sockets[..n + 1]) == Keys(sockets[..n]) + {sockets[n].fd}
  {
    var more, less := sockets[..n + 1], sockets[..n];
    assert forall i :: 0 <= i < n ==> more[i] == less[i];
    assert more[n] == sockets[n];
  }

  lemma AcceptHeard(server: int, callbacks: Callbacks, t: Turn, open: bool, fd: int)
    ensures Heard(open, AcceptEvents(server, callbacks, t), fd) <==>
      open || (server in t.ready && callbacks.onConnect && t.accepted == fd)
  {
    var events := AcceptEvents(server, callbacks, t);
    if events != [] {
      assert |events| == 1 && events[..0] == [];
    }
  }

  /** What one turn makes of the library's view. */
  lemma TurnHeard(server: int, callbacks: Callbacks, sockets: seq<Socket>, t: Turn, open: bool, fd: int)
    requires Ascending(sockets)
    ensures Heard(open, TurnEvents(server, callbacks, sockets, t), fd) <==>
      && (open || (Accepts(server, t) && callbacks.onConnect && t.accepted == fd))
      && !(DropsFd(server, sockets, t, fd) && t.received(fd).Closed? && callbacks.onDisconnect)
  {
    hide Ascending, WithAccepted, AcceptEvents, ServeEvents, Keys, Heard;
    TurnParts(server, callbacks, sockets, t);
    AcceptedKeys(server, sockets, t);
    if !Proceeds(server, t) {
      NothingHeard(open, fd);
    } else {
      var accepted := WithAccepted(server, sockets, t);
      var first := AcceptEvents(server, callbacks, t);
      AcceptHeard(server, callbacks, t, open, fd);
      if Left(server, t) > 0 {
        assert accepted[..|accepted|] == accepted;
        ServeHeard(callbacks, accepted, t, |accepted|, Heard(open, first, fd), fd);
        HeardTwice(open, first, ServeEvents(callbacks, accepted, t, |accepted|), fd);
      } else {
        assert first + [] == first;
      }
    }
  }

  lemma NothingHeard(open: bool, fd: int)
    ensures Heard(open, [], fd) == open
  {
  }

  lemma AcceptedKeys(server: int, sockets: seq<Socket>, t: Turn)
    requires Ascending(sockets)
    ensures var accepted := WithAccepted(server, sockets, t);
      && Ascending(accepted)
      && Keys(accepted) == Keys(sockets) + (if server in t.ready then {t.accepted} else {})
  {
    hide Ascending, Keys, Insert;
    if server in t.ready && t.accepted !in Keys(sockets) {
      InsertKeepsOrder(sockets, Socket(t.accepted, t.peer));
    }
  }

  /** A descriptor is open behind a turn if it was before or was accepted, and was not dropped. */
  lemma NextOpen(server: int, sockets: seq<Socket>, t: Turn, fd: int)
    requires Ascending(sockets)
    ensures Ascending(NextSockets(server, sockets, t))
    ensures fd in Keys(NextSockets(server, sockets, t)) <==>
      && (fd in Keys(sockets) || (Accepts(server, t) && t.accepted == fd))
      && !DropsFd(server, sockets, t, fd)
    ensures DropsFd(server, sockets, t, fd) ==> fd in Keys(sockets) || (Accepts(server, t) && t.accepted == fd)
  {
    hide Ascending, Keys, WithAccepted, Without;
    AcceptedKeys(server, sockets, t);
    var accepted := WithAccepted(server, sockets, t);
    WithoutKeepsOrder(accepted, DropSet(Keys(accepted), t));
  }

  // ----- whole runs -----

  /** The result of the receive for which `fd` was dropped last, if it ever was. */
  function LastDrop(server: int, turns: seq<Turn>, fd: int): Option<Received> {
    if turns == [] then None
    else
      var before, t := turns[..|turns| - 1], turns[|turns| - 1];
      if DropsFd(server, RunSockets(server, before), t, fd) then Some(t.received(fd)) else LastDrop(server, before, fd)
  }

  /** Nobody has told the library of the end of `fd`: it is open, or its last end is one that it is not told of. */
  predicate NotEnded(server: int, callbacks: Callbacks, turns: seq<Turn>, fd: int) {
    || fd in Keys(RunSockets(server, turns))
    || var drop := LastDrop(server, turns, fd);
       drop.Some? && (drop.value.BadDescriptor? || !callbacks.onDisconnect)
  }

  lemma {:induction false} LastDropDrops(server: int, turns: seq<Turn>, fd: int)
    ensures var drop := LastDrop(server, turns, fd); drop.Some? ==> Drops(drop.value)
  {
    hide RunSockets;
    if turns != [] {
      LastDropDrops(server, turns[..|turns| - 1], fd);
    }
  }

  lemma {:induction false} RunOrdered(server: int, turns: seq<Turn>)
    ensures Ascending(RunSockets(server, turns))
  {
    hide NextSockets;
    if turns != [] {
      RunOrdered(server, turns[..|turns| - 1]);
      NextOpen(server, RunSockets(server, turns[..|turns| - 1]), turns[|turns| - 1], 0);
    }
  }

  /**
   Over every run, the library takes a descriptor for connected exactly when it has a callback for connects
   and the descriptor is open or was last dropped without telling it: as a bad one, or, without a callback
   for disconnects, for any reason.
   */
  lemma {:induction false} LibraryKnows(server: int, callbacks: Callbacks, turns: seq<Turn>, fd: int)
    ensures Heard(false, RunEvents(server, callbacks, turns), fd) <==>
      callbacks.onConnect && NotEnded(server, callbacks, turns, fd)
  {
    hide NextSockets, TurnEvents, DropsFd, Heard, Keys;
    if turns == [] {
      NothingHeard(false, fd);
      assert fd !in Keys([]) by {
        NoKeys(fd);
      }
    } else {
      var before, t := turns[..|turns| - 1], turns[|turns| - 1];
      var sockets := RunSockets(server, before);
      LibraryKnows(server, callbacks, before, fd);
      RunOrdered(server, before);
      NextOpen(server, sockets, t, fd);
      TurnHeard(server, callbacks, sockets, t, Heard(false, RunEvents(server, callbacks, before), fd), fd);
      HeardTwice(false, RunEvents(server, callbacks, before), TurnEvents(server, callbacks, sockets, t), fd);
      LastDropDrops(server, turns, fd);
    }
  }

  lemma NoKeys(fd: int)
    ensures fd !in Keys([])
  {
  }

  // ----- connects that meet an old session -----

  /** The event of an accepted connection comes behind all events of the turns before, and meets what they left. */
  lemma ConnectMeets(server: int, callbacks: Callbacks, turns: seq<Turn>, t: Turn)
    requires Accepts(server, t) && callbacks.onConnect
    ensures var events := RunEvents(server, callbacks, turns);
      && events + [ConnectEvent(t)] <= RunEvents(server, callbacks, turns + [t])
      && (Heard(false, events, t.accepted) <==> NotEnded(server, callbacks, turns, t.accepted))
  {
    hide WithAccepted, ServeEvents, RunSockets, Heard;
    LibraryKnows(server, callbacks, turns, t.accepted);
    OneTurnMore(server, callbacks, turns, t);
    TurnParts(server, callbacks, RunSockets(server, turns), t);
  }

  lemma OneTurnMore(server: int, callbacks: Callbacks, turns: seq<Turn>, t: Turn)
    ensures RunSockets(server, turns + [t]) == NextSockets(server, RunSockets(server, turns), t)
    ensures RunKeys(server, turns + [t]) == NextKeys(server, RunKeys(server, turns), t)
    ensures RunEvents(server, callbacks, turns + [t]) ==
      RunEvents(server, callbacks, turns) + TurnEvents(server, callbacks, RunSockets(server, turns), t)
  {
    hide NextSockets, NextKeys, TurnEvents;
    assert (turns + [t])[..|turns|] == turns;
  }

  /**
   As the kernel never hands out a descriptor that is open, a connect meets a session that was not ended
   exactly when its descriptor was last dropped as a bad one.
   */
  lemma ConnectMeetsBadDrop(server: int, callbacks: Callbacks, turns: seq<Turn>, t: Turn)
    requires Accepts(server, t) && callbacks.onConnect && callbacks.onDisconnect
    requires t.accepted !in Keys(RunSockets(server, turns))
    ensures var events := RunEvents(server, callbacks, turns);
      && events + [ConnectEvent(t)] <= RunEvents(server, callbacks, turns + [t])
      && (Heard(false, events, t.accepted) <==> LastDrop(server, turns, t.accepted) == Some(BadDescriptor))
  {
    hide RunSockets, RunEvents, Heard, LastDrop;
    ConnectMeets(server, callbacks, turns, t);
  }

  /** Every connect among the events finds its descriptor ended, or never connected. */
  ghost predicate CleanConnects(events: seq<Handler.Event>) {
    events != [] ==>
      var before, e := events[..|events| - 1], events[|events| - 1];
      CleanConnects(before) && (e.eventType == Handler.EVENT_CONNECT ==> !Heard(false, before, e.fd))
  }

  /** The events of receives, which no connect is among. */
  ghost predicate NoConnects(events: seq<Handler.Event>) {
    forall i :: 0 <= i < |events| ==> events[i].eventType != Handler.EVENT_CONNECT
  }

  lemma {:induction false} ServedWithoutConnects(callbacks: Callbacks, sockets: seq<Socket>, t: Turn, n: nat)
    requires n <= |sockets|
    ensures NoConnects(ServeEvents(callbacks, sockets, t, n))
  {
    if n > 0 {
      ServedWithoutConnects(callbacks, sockets, t, n - 1);
    }
  }

  lemma {:induction false} StaysClean(events: seq<Handler.Event>, more: seq<Handler.Event>)
    requires NoConnects(more)
    ensures CleanConnects(events + more) <==> CleanConnects(events)
  {
    if more == [] {
      assert events + more == events;
    } else {
      hide Heard;
      assert (events + more)[..|events + more| - 1] == events + more[..|more| - 1];
      StaysClean(events, more[..|more| - 1]);
    }
  }

  lemma CleanOneMore(events: seq<Handler.Event>, e: Handler.Event)
    requires e.eventType == Handler.EVENT_CONNECT
    ensures CleanConnects(events + [e]) <==> CleanConnects(events) && !Heard(false, events, e.fd)
  {
    hide Heard;
    assert (events + [e])[..|events|] == events;
  }

  /** A turn keeps the events clean unless it accepts a descriptor that is not ended. */
  lemma TurnClean(server: int, callbacks: Callbacks, turns: seq<Turn>, t: Turn)
    ensures CleanConnects(RunEvents(server, callbacks, turns + [t])) <==>
      && CleanConnects(RunEvents(server, callbacks, turns))
      && !(Accepts(server, t) && callbacks.onConnect && NotEnded(server, callbacks, turns, t.accepted))
  {
    hide CleanConnects, RunEvents, RunSockets, NoConnects, WithAccepted, ServeEvents, NotEnded, Heard;
    var events, sockets := RunEvents(server, callbacks, turns), RunSockets(server, turns);
    OneTurnMore(server, callbacks, turns, t);
    TurnParts(server, callbacks, sockets, t);
    var first, accepted := AcceptEvents(server, callbacks, t), WithAccepted(server, sockets, t);
    if Proceeds(server, t) {
      var rest := if Left(server, t) > 0 then ServeEvents(callbacks, accepted, t, |accepted|) else [];
      ServedWithoutConnects(callbacks, accepted, t, |accepted|);
      assert NoConnects([]) by {
        NoneAtAll();
      }
      Regroup(events, first, rest);
      StaysClean(events + first, rest);
      if first == [] {
        assert events + first == events;
      } else {
        CleanOneMore(events, ConnectEvent(t));
        LibraryKnows(server, callbacks, turns, t.accepted);
      }
    } else {
      assert events + [] == events;
    }
  }

  lemma NoneAtAll()
    ensures NoConnects([])
  {
  }

  /** No turn accepts a descriptor whose end the library was not told of. */
  ghost predicate AcceptsEndedOnly(server: int, callbacks: Callbacks, turns: seq<Turn>) {
    forall i :: 0 <= i < |turns| && Accepts(server, turns[i]) ==>
      !NotEnded(server, callbacks, turns[..i], turns[i].accepted)
  }

  /**
   Over every run: no connect among the events meets a session that was not ended, exactly when no turn
   accepts a descriptor that is still open or was last dropped without telling the library.
   */
  lemma {:induction false} ConnectsClean(server: int, callbacks: Callbacks, turns: seq<Turn>)
    requires callbacks.onConnect
    ensures CleanConnects(RunEvents(server, callbacks, turns)) <==> AcceptsEndedOnly(server, callbacks, turns)
  {
    if turns != [] {
      hide RunEvents, NotEnded, CleanConnects, Accepts;
      var before, t := turns[..|turns| - 1], turns[|turns| - 1];
      assert turns == before + [t];
      ConnectsClean(server, callbacks, before);
      TurnClean(server, callbacks, before, t);
      AcceptsMore(server, callbacks, before, t);
    }
  }

  lemma AcceptsMore(server: int, callbacks: Callbacks, turns: seq<Turn>, t: Turn)
    ensures AcceptsEndedOnly(server, callbacks, turns + [t]) <==>
      && AcceptsEndedOnly(server, callbacks, turns)
      && !(Accepts(server, t) && NotEnded(server, callbacks, turns, t.accepted))
  {
    hide NotEnded, Accepts;
    var all := turns + [t];
    assert forall i :: 0 <= i <= |turns| ==> all[..i] == turns[..i];
    assert all[|turns|] == t && turns[..|turns|] == turns;
    assert forall i :: 0 <= i < |turns| ==> all[i] == turns[i];
  }

  // ----- such a run -----

  /** Only the server socket is ready, and the accept yields `fd`. */
  function AcceptTurn(server: int, fd: int, peer: nat): Turn {
    Turn(1, {server}, fd, peer, (_: int) => OtherError)
  }

  /** Only `fd` is ready, and its receive finds the descriptor bad. */
  function BadTurn(fd: int): Turn {
    Turn(1, {fd}, fd, 0, (_: int) => BadDescriptor)
  }

  lemma AcceptTurnOpens(server: int, callbacks: Callbacks, fd: int, peer: nat)
    requires server != fd && fd != -1
    ensures var t := AcceptTurn(server, fd, peer);
      && Contract(server, {server}, t) && Accepts(server, t)
      && NextKeys(server, {}, t) == {fd}
      && NextSockets(server, [], t) == [Socket(fd, peer)]
      && TurnEvents(server, callbacks, [], t) == if callbacks.onConnect then [ConnectEvent(t)] else []
  {
    hide ServeEvents;
    assert Keys([]) == {};
  }

  lemma BadTurnDrops(server: int, callbacks: Callbacks, fd: int, peer: nat)
    requires server != fd
    ensures var t := BadTurn(fd);
      && Contract(server, {server} + {fd}, t)
      && NextKeys(server, {fd}, t) == {}
      && NextSockets(server, [Socket(fd, peer)], t) == []
      && TurnEvents(server, callbacks, [Socket(fd, peer)], t) == []
  {
    var t, sockets := BadTurn(fd), [Socket(fd, peer)];
    assert sockets[0].fd == fd && Keys(sockets) == {fd};
    assert sockets[1..] == [] && Without(sockets[1..], {fd}) == [];
    assert Without(sockets, {fd}) == [];
    assert ServeEvents(callbacks, sockets, t, 1) == [];
    assert DropSet({fd}, t) == {fd};
    TurnParts(server, callbacks, sockets, t);
    hide NextSockets, TurnEvents, ServeEvents, Without, WithAccepted, AcceptEvents, Keys;
  }

  /**
   A descriptor is accepted, found bad and dropped, and accepted again: the library is told of two connects
   and of no end in between.
   */
  lemma ConnectWithoutEnd(server: int, callbacks: Callbacks, fd: int, peer: nat)
    requires server != fd && fd != -1 && callbacks.onConnect
    ensures var t := AcceptTurn(server, fd, peer);
      var turns := [] + [t] + [BadTurn(fd)] + [t];
      && AllContracts(server, turns)
      && RunEvents(server, callbacks, turns) == [ConnectEvent(t), ConnectEvent(t)]
      && !CleanConnects(RunEvents(server, callbacks, turns))
  {
    hide NextKeys, NextSockets, TurnEvents, Contract, Accepts, AcceptTurn, BadTurn, CleanConnects;
    var t, bad := AcceptTurn(server, fd, peer), BadTurn(fd);
    AcceptTurnOpens(server, callbacks, fd, peer);
    BadTurnDrops(server, callbacks, fd, peer);
    OneTurnMore(server, callbacks, [], t);
    OneTurnMore(server, callbacks, [] + [t], bad);
    OneTurnMore(server, callbacks, [] + [t] + [bad], t);
    var turns := [] + [t] + [bad] + [t];
    assert RunKeys(server, []) == {} && RunSockets(server, []) == [] && RunEvents(server, callbacks, []) == [];
    assert {server} + {} == {server};
    hide RunKeys, RunSockets, RunEvents, AllContracts;
    var connect := ConnectEvent(t);
    assert RunEvents(server, callbacks, [] + [t]) == [connect];
    assert RunEvents(server, callbacks, [] + [t] + [bad]) == [connect];
    assert RunEvents(server, callbacks, turns) == [connect, connect];
    ThreeContracts(server, t, bad);
    TwoConnects(connect);
  }

  lemma ThreeContracts(server: int, t: Turn, bad: Turn)
    requires Contract(server, {server} + RunKeys(server, []), t)
    requires Contract(server, {server} + RunKeys(server, [] + [t]), bad)
    requires Contract(server, {server} + RunKeys(server, [] + [t] + [bad]), t)
    ensures AllContracts(server, [] + [t] + [bad] + [t])
  {
    hide Contract, RunKeys;
    var turns := [] + [t] + [bad] + [t];
    assert turns[..0] == [] && turns[..1] == [] + [t] && turns[..2] == [] + [t] + [bad];
  }

  lemma TwoConnects(e: Handler.Event)
    requires e.eventType == Handler.EVENT_CONNECT
    ensures !CleanConnects([e, e])
  {
    assert [e, e] == [e] + [e] && [e][..0] == [];
    assert Heard(false, [e], e.fd);
    CleanOneMore([e], e);
  }
}
