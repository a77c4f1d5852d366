/**
 The connection manager: an ordered map of sockets by descriptor, and a queue of sockets to be closed
 later, so that the map stays as it is while it is being iterated.
 */
module SocketMgr {

  datatype Socket = Socket(fd: int, address: nat)

  /** The sockets in the order the map iterates over them, strictly ascending by descriptor. */
  predicate Ascending(s: seq<Socket>) {
    forall i, j :: 0 <= i < j < |s| ==> s[i].fd < s[j].fd
  }

  function Keys(s: seq<Socket>): set<int> {
    set i | 0 <= i < |s| :: s[i].fd
  }

  /** The position of a descriptor, or the size of the map, which stands for its end. */
  function Position(s: seq<Socket>, fd: int): (r: nat)
    ensures r <= |s|
    ensures r < |s| ==> s[r].fd == fd
    ensures r == |s| <==> fd !in Keys(s)
  {
    if s == [] then 0
    else if s[0].fd == fd then 0
    else
      KeysTail(s);
      1 + Position(s[1..], fd)
  }

  lemma KeysTail(s: seq<Socket>)
    requires s != []
    ensures Keys(s) == {s[0].fd} + Keys(s[1..])
    ensures Ascending(s) <==> Ascending(s[1..]) && forall x :: x in Keys(s[1..]) ==> s[0].fd < x
  {
    var rest := s[1..];
    assert forall i :: 0 <= i < |rest| ==> rest[i] == s[i + 1] && rest[i].fd in Keys(rest);
    assert forall i :: 1 <= i < |s| ==> s[i] == rest[i - 1];
  }

  /** Insertion of a new key at its place. */
  function Insert(s: seq<Socket>, sock: Socket): seq<Socket> {
    if s == [] || sock.fd < s[0].fd then [sock] + s else [s[0]] + Insert(s[1..], sock)
  }

  function Erase(s: seq<Socket>, fd: int): seq<Socket> {
    if s == [] then [] else if s[0].fd == fd then s[1..] else [s[0]] + Erase(s[1..], fd)
  }

  lemma {:induction false} InsertKeepsOrder(s: seq<Socket>, sock: Socket)
    requires Ascending(s) && sock.fd !in Keys(s)
    ensures Ascending(Insert(s, sock)) && Keys(Insert(s, sock)) == Keys(s) + {sock.fd}
  {
    var r := Insert(s, sock);
    KeysTail(r);
    if s != [] {
      KeysTail(s);
      if s[0].fd < sock.fd {
        InsertKeepsOrder(s[1..], sock);
        assert r[1..] == Insert(s[1..], sock);
      }
    }
    hide Ascending, Keys;
    if s == [] || sock.fd < s[0].fd {
      assert r[1..] == s;
    }
  }

  /** Insertion keeps every other socket as it is. */
  lemma {:induction false} InsertMembers(s: seq<Socket>, sock: Socket, x: Socket)
    ensures x in Insert(s, sock) <==> x in s || x == sock
  {
    if s != [] && s[0].fd <= sock.fd {
      InsertMembers(s[1..], sock, x);
      assert s == [s[0]] + s[1..];
    }
  }

  lemma {:induction false} WithoutMembers(s: seq<Socket>, fds: set<int>, x: Socket)
    ensures x in Without(s, fds) <==> x in s && x.fd !in fds
  {
    if s != [] {
      WithoutMembers(s[1..], fds, x);
      assert s == [s[0]] + s[1..];
    }
  }

  lemma {:induction false} EraseKeepsOrder(s: seq<Socket>, fd: int)
    requires Ascending(s)
    ensures Ascending(Erase(s, fd)) && Keys(Erase(s, fd)) == Keys(s) - {fd}
  {
    if s != [] {
      KeysTail(s);
      if s[0].fd != fd {
        EraseKeepsOrder(s[1..], fd);
        var r := Erase(s, fd);
        KeysTail(r);
        assert r[1..] == Erase(s[1..], fd);
      }
    }
    hide Ascending, Keys;
  }

  /** The map without the sockets of these descriptors. */
  function Without(s: seq<Socket>, fds: set<int>): seq<Socket> {
    if s == [] then [] else (if s[0].fd in fds then [] else [s[0]]) + Without(s[1..], fds)
  }

  lemma {:induction false} WithoutAbsent(s: seq<Socket>, fd: int, fds: set<int>)
    requires fd !in Keys(s)
    ensures Without(s, {fd} + fds) == Without(s, fds)
  {
    if s != [] {
      KeysTail(s);
      WithoutAbsent(s[1..], fd, fds);
    }
  }

  lemma {:induction false} WithoutErased(s: seq<Socket>, fd: int, fds: set<int>)
    requires Ascending(s)
    ensures Without(Erase(s, fd), fds) == Without(s, {fd} + fds)
  {
    if s != [] {
      KeysTail(s);
      hide Ascending, Keys;
      if s[0].fd == fd {
        WithoutAbsent(s[1..], fd, fds);
      } else {
        WithoutErased(s[1..], fd, fds);
        assert Erase(s, fd)[1..] == Erase(s[1..], fd);
      }
    }
  }

  lemma {:induction false} WithoutNone(s: seq<Socket>)
    ensures Without(s, {}) == s
  {
    if s != [] {
      WithoutNone(s[1..]);
    }
  }

  lemma {:induction false} WithoutKeepsOrder(s: seq<Socket>, fds: set<int>)
    requires Ascending(s)
    ensures Ascending(Without(s, fds)) && Keys(Without(s, fds)) == Keys(s) - fds
  {
    if s == [] {
      assert Without(s, fds) == [];
    } else {
      hide Ascending, Keys;
      var w, rest := Without(s, fds), Without(s[1..], fds);
      KeysTail(s);
      WithoutKeepsOrder(s[1..], fds);
      if s[0].fd in fds {
        assert w == rest;
      } else {
        assert w == [s[0]] + rest && w[1..] == rest;
        KeysTail(w);
      }
      assert {s[0].fd} + Keys(s[1..]) - fds == ({s[0].fd} - fds) + (Keys(s[1..]) - fds);
    }
  }

  /** The keys smaller than `x`. */
  function Below(keys: set<int>, x: int): set<int> {
    set k | k in keys && k < x
  }

  lemma BelowStep(s: seq<Socket>, p: nat)
    requires Ascending(s) && p < |s|
    ensures p == 0 ==> Below(Keys(s), s[p].fd) == {}
    ensures p > 0 ==> var before := Below(Keys(s), s[p - 1].fd);
      Below(Keys(s), s[p].fd) == before + {s[p - 1].fd} && s[p - 1].fd !in before
  {
    assert forall i :: 0 <= i < |s| && s[i].fd < s[p].fd ==> i < p;
  }

  lemma {:induction false} BelowCount(s: seq<Socket>, p: nat)
    requires Ascending(s) && p < |s|
    ensures |Below(Keys(s), s[p].fd)| == p
  {
    hide Ascending, Keys, Below;
    BelowStep(s, p);
    if p > 0 {
      BelowCount(s, p - 1);
    }
  }

  function Elements(queue: seq<int>): set<int> {
    set i | 0 <= i < |queue| :: queue[i]
  }

  predicate Distinct(queue: seq<int>) {
    forall i, j :: 0 <= i < j < |queue| ==> queue[i] != queue[j]
  }

  lemma Queued(queue: seq<int>, fd: int)
    ensures Elements(queue + [fd]) == Elements(queue) + {fd}
    ensures Distinct(queue + [fd]) <==> Distinct(queue) && fd !in queue
  {
    var all := queue + [fd];
    assert all[|queue|] == fd;
    assert forall i :: 0 <= i < |queue| ==> all[i] == queue[i];
  }

  class ConnectionMgr {
    var sockets: seq<Socket>
    /** The close queue; it holds iterators, which stay valid while other sockets are erased. */
    var queue: seq<int>
    var closed: seq<int>

    /** The map is ordered, and every queued iterator stands for a socket that is still there. */
    ghost predicate Valid()
      reads this
    {
      Ascending(sockets) && Elements(queue) <= Keys(sockets)
    }

    /** No socket is queued twice; one that is would be erased again through an iterator that is gone by then. */
    ghost predicate QueuedOnce()
      reads this
    {
      Distinct(queue)
    }

    constructor ()
      ensures Valid() && QueuedOnce() && sockets == [] && queue == [] && closed == []
    {
      sockets, queue, closed := [], [], [];
    }

    method AddSocket(sock: Socket)
      requires Valid()
      modifies this`sockets
      ensures Valid() && Keys(sockets) == old(Keys(sockets)) + {sock.fd}
      ensures sock.fd in old(Keys(sockets)) ==> sockets == old(sockets)
      ensures sock.fd !in old(Keys(sockets)) ==> sockets == Insert(old(sockets), sock)
    {
      if Position(sockets, sock.fd) < |sockets| {
        return;
      }
      InsertKeepsOrder(sockets, sock);
      sockets := Insert(sockets, sock);
    }

    /** Only queues the socket, and does so again when it is already queued. */
    method CloseSocketByFd(fd: int)
      requires Valid()
      modifies this`queue
      ensures Valid()
      ensures QueuedOnce() <==> old(QueuedOnce()) && !(fd in old(queue) && fd in Keys(sockets))
      ensures queue == if fd in Keys(sockets) then old(queue) + [fd] else old(queue)
    {
      if Position(sockets, fd) == |sockets| {
        return;
      }
      Queued(queue, fd);
      queue := queue + [fd];
    }

    method CloseAllPendingSockets()
      requires Valid() && QueuedOnce()
      modifies this
      ensures Valid() && queue == [] && QueuedOnce()
      ensures sockets == Without(old(sockets), old(Elements(queue)))
      ensures Keys(sockets) == old(Keys(sockets)) - old(Elements(queue))
      ensures closed == old(closed) + old(queue)
    {
      hide Ascending, Keys, Distinct, Elements, Without;
      while |queue| > 0
        invariant Valid() && QueuedOnce()
        invariant Without(sockets, Elements(queue)) == Without(old(sockets), old(Elements(queue)))
        invariant Keys(sockets) - Elements(queue) == old(Keys(sockets)) - old(Elements(queue))
        invariant closed + queue == old(closed) + old(queue)
      {
        var front := queue[0];
        ElementsTail(queue);
        closed := closed + [front];
        EraseKeepsOrder(sockets, front);
        WithoutErased(sockets, front, Elements(queue[1..]));
        sockets := Erase(sockets, front);
        queue := queue[1..];
      }
      NoElements(queue);
      WithoutNone(sockets);
    }

    /** The element with exactly `id` smaller keys, as long as there are that many; otherwise the end. */
    method GetSocketMapElementById(id: nat) returns (position: nat)
      requires Valid()
      ensures id < |sockets| ==> position < |sockets| && |Below(Keys(sockets), sockets[position].fd)| == id
      ensures id >= |sockets| ==> position == |sockets|
    {
      if id > |sockets| {
        return |sockets|;
      }
      position := id;
      if id < |sockets| {
        BelowCount(sockets, id);
      }
    }

    /** The descriptor at the last position is the largest; without sockets the answer is 0. */
    method GetHighestFd() returns (fd: int)
      requires Valid()
      ensures sockets == [] ==> fd == 0
      ensures sockets != [] ==> fd in Keys(sockets) && forall x :: x in Keys(sockets) ==> x <= fd
    {
      if |sockets| == 0 {
        return 0;
      }
      var position := GetSocketMapElementById(|sockets| - 1);
      fd := sockets[position].fd;
      AllButOneBelow(sockets, position);
    }
  }

  lemma NoElements(queue: seq<int>)
    ensures queue == [] ==> Elements(queue) == {} && Distinct(queue)
  {
  }

  /** The element that all the others are smaller than is the last. */
  lemma AllButOneBelow(s: seq<Socket>, p: nat)
    requires Ascending(s) && p < |s| && |Below(Keys(s), s[p].fd)| == |s| - 1
    ensures s[p].fd in Keys(s) && forall x :: x in Keys(s) ==> x <= s[p].fd
  {
    BelowCount(s, p);
  }

  lemma ElementsTail(queue: seq<int>)
    requires queue != []
    ensures Elements(queue) == {queue[0]} + Elements(queue[1..])
    ensures Distinct(queue) ==> queue[0] !in Elements(queue[1..]) && Distinct(queue[1..])
  {
    var rest := queue[1..];
    forall x | x in Elements(rest)
      ensures x in Elements(queue)
    {
      var i :| 0 <= i < |rest| && rest[i] == x;
      assert queue[i + 1] == x;
    }
    forall x | x in Elements(queue)
      ensures x == queue[0] || x in Elements(rest)
    {
      var i :| 0 <= i < |queue| && queue[i] == x;
      assert i > 0 ==> rest[i - 1] == x;
    }
  }
}
