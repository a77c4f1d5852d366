/**
 Sending over an FTP data connection: the chunk loops of `SendData`, in active and in passive mode, for
 data in memory and for files, over the partial-send loop of `Socket::Send`.

 The network is a script: each system call takes the next reply, and a script that runs out stands for a
 transfer still under way. The peer's side is the sequence of elements it has accepted; the element type
 is a parameter, because nothing here looks at the bytes.
 */
module FtpTransfer {
  import opened Basics
  import opened FtpScript
  import BinData

  /** A control-channel socket, used by passive transfers. */
  class Socket<T> {
    const fd: int
    var error: int
    var isConnected: bool
    ghost var accepted: seq<T>

    constructor (fd: int)
      ensures this.fd == fd && accepted == []
    {
      this.fd := fd;
      error, isConnected, accepted := 0, true, [];
    }

    /**
     Sends until everything is taken, the peer is gone, or an error other than EAGAIN. Unless the
     descriptor is bad, a failure is never reported as EAGAIN; the peer has a prefix of the buffer, all of
     it exactly when the call returns the full length. `done` is false when the script ran out first.
     */
    method Send(buffer: seq<T>, replies: seq<Reply>, stale: int)
        returns (ret: int, errno: int, done: bool, ghost taken: nat)
      modifies this
      ensures taken <= |buffer| && accepted == old(accepted) + buffer[..taken]
      ensures done ==> ret in {-1, 0, |buffer|}
      ensures taken == |buffer| <==> done && ret == |buffer|
      ensures done && ret == -1 && errno == EAGAIN ==> fd < 0
      ensures fd < 0 ==> taken == 0 && done && (buffer != [] ==> ret == -1 && errno == stale)
      ensures fd >= 0 ==> AsScripted(SendRun(|buffer|, replies), |buffer|, ret, errno, done, taken)
    {
      hide SendRun;
      ghost var script := SendRun(|buffer|, replies);
      assert replies[0..] == replies;
      var sended := 0;
      ret, errno, taken := 0, stale, 0;
      var next := 0;
      while |buffer| > sended
        invariant sended <= |buffer| && taken == sended && next <= |replies|
        invariant accepted == old(accepted) + buffer[..sended]
        invariant fd < 0 ==> taken == 0
        invariant var rest := SendRun(|buffer| - sended, replies[next..]);
          script.0 == sended + rest.0 && script.1 == rest.1
        decreases |replies| - next
      {
        SendStep(|buffer| - sended, replies, next);
        if fd < 0 {
          return -1, stale, true, 0;
        }
        if next == |replies| {
          return ret, errno, false, taken;
        }
        match replies[next] {
          case Took(n) =>
            ret := Least(n, |buffer| - sended);
            if ret > 0 {
              accepted := accepted + buffer[sended..sended + ret];
              assert buffer[..sended] + buffer[sended..sended + ret] == buffer[..sended + ret];
              sended := sended + ret;
              taken := sended;
            } else {
              isConnected, error := false, errno;
              return ret, errno, true, taken;
            }
          case Fails(code) =>
            ret, errno := -1, code;
            error := code;
            if code != EAGAIN {
              return ret, errno, true, taken;
            }
        }
        next := next + 1;
      }
      NothingToAsk(replies[next..]);
      return sended, errno, true, taken;
    }
  }

  lemma NothingToAsk(replies: seq<Reply>)
    ensures SendRun(0, replies) == (0, Filled)
  {
  }

  /** One reply of what is left of a script, and how the send goes on behind it. */
  lemma SendStep(len: nat, replies: seq<Reply>, i: nat)
    requires len > 0 && i <= |replies|
    ensures i == |replies| ==> SendRun(len, replies[i..]) == (0, Pending)
    ensures i < |replies| && replies[i] == Took(0) ==> SendRun(len, replies[i..]) == (0, Gone)
    ensures i < |replies| && replies[i].Took? && replies[i].n > 0 ==>
      && SendRun(len, replies[i..]).0 ==
           Least(replies[i].n, len) + SendRun(len - Least(replies[i].n, len), replies[i + 1..]).0
      && SendRun(len, replies[i..]).1 == SendRun(len - Least(replies[i].n, len), replies[i + 1..]).1
    ensures i < |replies| && replies[i] == Fails(EAGAIN) ==>
      SendRun(len, replies[i..]) == SendRun(len, replies[i + 1..])
    ensures i < |replies| && replies[i].Fails? && replies[i].errno != EAGAIN ==>
      SendRun(len, replies[i..]) == (0, Broken(replies[i].errno))
  {
    if i < |replies| {
      assert replies[i..][0] == replies[i] && replies[i..][1..] == replies[i + 1..];
    }
  }

  /** What a send returns, when its replies make `script` of it. */
  ghost predicate AsScripted(script: (nat, SendEnd), len: nat, ret: int, errno: int, done: bool, taken: nat) {
    && taken == script.0
    && (done <==> script.1 != Pending)
    && (script.1 == Filled ==> ret == len)
    && (script.1 == Gone ==> ret == 0)
    && (script.1.Broken? ==> ret == -1 && errno == script.1.errno)
  }

  /**
   The responses sent on the control connection. After the loop, 226 reports every end but a vanished peer,
   whether or not everything was delivered, and 426 follows when the abort flag is set by then.
   */
  function Responses(end: End, abortFlag: bool): (r: seq<int>)
    ensures 425 in r <==> end == Refused
    ensures 226 in r <==> end in {Complete, BrokenOff, Aborted}
    ensures 426 in r <==> end == Aborted || (abortFlag && end in {Complete, BrokenOff, PeerGone})
    ensures r != [] && r[0] == 150 && (426 in r ==> r[|r| - 1] == 426)
    ensures |r| == (if end == UnderWay then 1 else if 226 in r && 426 in r then 3 else if end != PeerGone then 2
                    else if abortFlag then 2 else 1)
  {
    match end
    case UnderWay => [150]
    case Refused => [150, 425]
    case _ => [150] + (if end == PeerGone then [] else [226]) + (if end == Aborted || abortFlag then [426] else [])
  }

  /** What the peer has, when the source is `source` and the loop has counted `sended` elements. */
  ghost predicate Delivered<T>(source: seq<T>, accepted: seq<T>, sended: nat) {
    && accepted <= source
    && sended <= |accepted|
    && (sended == |source| <==> accepted == source)
  }

  /** Some of a part of the source, accepted behind all that comes before that part. */
  lemma PartArrives<T>(source: seq<T>, from: nat, part: nat, taken: nat)
    requires taken <= part && from + part <= |source|
    ensures source[from..from + part][..taken] == source[from..from + taken]
    ensures source[..from] + source[from..from + taken] == source[..from + taken]
  {
  }

  /** The first turn of what is left of a script, and how the loop goes on behind it. */
  lemma OneTurn(job: Job, pos: nat, sent: nat, turns: seq<Turn>, i: nat)
    requires job.At(pos, sent) && i < |turns|
    ensures var rest, part := TransferRun(job, pos, sent, turns[i..]), job.Part(pos, sent, turns[i]);
      if turns[i].aborted then rest == (sent, Aborted)
      else
        match TurnOutcome(job.link, part, turns[i])
        case Stops(end) => rest == (sent, end)
        case Retries => rest == TransferRun(job, job.Moved(pos, part), sent, turns[i + 1..])
        case Advances(n) =>
          if sent + n == job.len then rest == (job.len, Complete)
          else rest == TransferRun(job, job.Moved(pos, part), sent + n, turns[i + 1..])
  {
    hide TurnOutcome, Chunk;
    assert turns[i..][0] == turns[i] && turns[i..][1..] == turns[i + 1..];
  }

  lemma PartIs(job: Job, pos: nat, sent: nat, turn: Turn)
    requires job.At(pos, sent)
    ensures var part := job.Part(pos, sent, turn);
      if job.fromFile then part == Chunk(job.len, pos, job.segment, turn) && job.Moved(pos, part) == pos + part
      else part == Least(job.segment, job.len - sent) && job.Moved(pos, part) == pos
  {
    hide Chunk;
  }

  lemma NoTurn(job: Job, pos: nat, sent: nat)
    requires job.At(pos, sent)
    ensures TransferRun(job, pos, sent, []) == (sent, UnderWay)
  {
  }

  /** The outcome of a passive turn, told from how its send stops. */
  lemma PassiveTurn(fd: int, part: nat, turn: Turn)
    ensures var o, end := TurnOutcome(Passive(fd), part, turn), SendRun(part, turn.replies).1;
      && (part == 0 ==> o == Stops(PeerGone))
      && (part > 0 && fd < 0 ==> o == if turn.stale == EAGAIN then Retries else Stops(BrokenOff))
      && (part > 0 && fd >= 0 && end == Filled ==> o == Advances(part))
      && (part > 0 && fd >= 0 && end == Gone ==> o == Stops(PeerGone))
      && (part > 0 && fd >= 0 && end.Broken? ==> o == Stops(BrokenOff))
      && (part > 0 && fd >= 0 && end == Pending ==> o == Stops(UnderWay))
  {
  }

  /** Between two turns of the passive loop the peer has what was counted, and nothing over a bad descriptor. */
  ghost predicate PassiveState<T>(source: seq<T>, fromFile: bool, fd: int, filePos: nat, sended: nat,
                                  accepted: seq<T>) {
    && sended <= |source| && filePos <= |source|
    && (fd >= 0 ==> accepted == source[..sended] && (fromFile ==> filePos == sended))
    && (fd < 0 ==> accepted == [] && sended == 0)
  }

  /** What a send adds leaves the peer with a prefix, and with a whole part more when it is taken whole. */
  lemma PartSent<T>(source: seq<T>, fromFile: bool, fd: int, filePos: nat, sended: nat, accepted: seq<T>,
                    from: nat, part: nat, taken: nat)
    requires PassiveState(source, fromFile, fd, filePos, sended, accepted)
    requires from == (if fromFile then filePos else sended) && from + part <= |source| && taken <= part
    requires fd < 0 ==> taken == 0
    ensures var pos' := if fromFile then filePos + part else filePos;
      var accepted' := accepted + source[from..from + part][..taken];
      && (source == [] || (sended < |source| && taken < part) || (fd < 0 && sended < |source|) ==>
            Delivered(source, accepted', sended))
      && (taken == part && fd >= 0 ==> PassiveState(source, fromFile, fd, pos', sended + part, accepted'))
      && (fd < 0 ==> PassiveState(source, fromFile, fd, pos', sended, accepted'))
      && (part == 0 && fd >= 0 ==> PassiveState(source, fromFile, fd, pos', sended, accepted'))
  {
    PartArrives(source, from, part, taken);
  }

  lemma StateDelivers<T>(source: seq<T>, fromFile: bool, fd: int, filePos: nat, sended: nat, accepted: seq<T>)
    requires PassiveState(source, fromFile, fd, filePos, sended, accepted)
    ensures Delivered(source, accepted, sended)
  {
    assert source[..|source|] == source;
  }

  lemma StateIsAt<T>(source: seq<T>, fromFile: bool, fd: int, filePos: nat, sended: nat, accepted: seq<T>, segment: nat)
    requires PassiveState(source, fromFile, fd, filePos, sended, accepted)
    ensures Job(Passive(fd), fromFile, |source|, segment).At(filePos, sended)
  {
  }

  lemma NothingSent<T>(source: seq<T>, fromFile: bool, fd: int)
    ensures PassiveState(source, fromFile, fd, 0, 0, [])
  {
  }

  /**
   The passive loop. For any partial sends and retries the peer holds a prefix of the source, from memory
   and from a file alike, and holds all of it exactly when `sended` has reached the length.
   */
  method SendPassive<T>(source: seq<T>, fromFile: bool, segment: nat, fd: int, turns: seq<Turn>)
      returns (sended: nat, end: End, ghost accepted: seq<T>)
    ensures Delivered(source, accepted, sended)
    ensures end != Refused && (end == Complete ==> sended == |source|)
    ensures (sended, end) == TransferRun(Job(Passive(fd), fromFile, |source|, segment), 0, 0, turns)
  {
    hide TransferRun, TurnOutcome, SendRun, Chunk, Delivered, PassiveState;
    ghost var job := Job(Passive(fd), fromFile, |source|, segment);
    ghost var result := TransferRun(job, 0, 0, turns);
    hide Job.Part, Job.Moved, Job.At;
    assert turns[0..] == turns;
    var pSock := new Socket<T>(fd);
    sended, end, accepted := 0, UnderWay, [];
    var filePos: nat, i: nat := 0, 0;
    NothingSent(source, fromFile, fd);
    StateIsAt(source, fromFile, fd, filePos, sended, accepted, segment);
    while i < |turns|
      invariant i <= |turns| && end == UnderWay
      invariant accepted == pSock.accepted && pSock.fd == fd && fresh(pSock)
      invariant PassiveState(source, fromFile, fd, filePos, sended, accepted)
      invariant sended <= |source| && filePos <= |source| && (source != [] ==> sended < |source|)
      invariant job.At(filePos, sended) && result == TransferRun(job, filePos, sended, turns[i..])
    {
      var turn := turns[i];
      OneTurn(job, filePos, sended, turns, i);
      StateDelivers(source, fromFile, fd, filePos, sended, accepted);
      if turn.aborted {
        end := Aborted;
        return;
      }
      ghost var before, pos := accepted, filePos;
      PartIs(job, filePos, sended, turn);
      var from: nat, part: nat;
      if !fromFile {
        from, part := sended, Least(segment, |source| - sended);
      } else {
        from, part := filePos, Chunk(|source|, filePos, segment, turn);
        filePos := filePos + part;
      }
      var sendReturn, errno, done, taken := pSock.Send(source[from..from + part], turn.replies, turn.stale);
      accepted := pSock.accepted;
      PartSent(source, fromFile, fd, pos, sended, before, from, part, taken);
      PassiveTurn(fd, part, turn);
      if !done {
        return;
      }
      if sendReturn == -1 {
        if errno != EAGAIN {
          end := BrokenOff;
          return;
        }
      } else if sendReturn == 0 {
        end := PeerGone;
        if part == 0 && fd >= 0 {
          StateDelivers(source, fromFile, fd, filePos, sended, accepted);
        }
        return;
      } else {
        sended := sended + sendReturn;
        if |source| - sended == 0 {
          end := Complete;
          StateDelivers(source, fromFile, fd, filePos, sended, accepted);
          return;
        }
      }
      StateIsAt(source, fromFile, fd, filePos, sended, accepted, segment);
      i := i + 1;
    }
    assert turns[|turns|..] == [];
    NoTurn(job, filePos, sended);
    StateDelivers(source, fromFile, fd, filePos, sended, accepted);
  }

  /** How the active loop over memory goes on after `sent` of `len` elements: what it counts up to, and how it ends. */
  function MemoryRun(len: nat, sent: nat, segment: nat, turns: seq<Turn>): (r: (nat, End))
    requires sent <= len
  {
    TransferRun(Job(Active, false, len, segment), 0, sent, turns)
  }

  // ----- the length cut to 16 bits -----

  /** With segment and rest both of 65536 or more, what one `send` is asked for leaves a rest of 65536 or more. */
  lemma CutLeavesMuch(rest: nat, segment: nat)
    requires rest >= 0x1_0000 && segment >= 0x1_0000
    ensures rest - Length16(Least(segment, rest)) >= 0x1_0000
  {
  }

  lemma {:induction false} NeverCompletes(len: nat, sent: nat, segment: nat, turns: seq<Turn>)
    requires sent <= len && len - sent >= 0x1_0000 && segment >= 0x1_0000
    ensures var (counted, end) := MemoryRun(len, sent, segment, turns);
      end != Complete && counted <= len && len - counted >= 0x1_0000
    decreases |turns|
  {
    hide SendOnce, Length16;
    if turns != [] && !turns[0].aborted {
      CutLeavesMuch(len - sent, segment);
      match SendOnce(Least(segment, len - sent), turns[0].replies) {
        case Retry => NeverCompletes(len, sent, segment, turns[1..]);
        case Sent(n) =>
          if n > 0 {
            NeverCompletes(len, sent + n, segment, turns[1..]);
          }
        case _ =>
      }
    }
  }

  /** A peer that takes whatever it is offered, for `n` turns. */
  function TakingAll(n: nat): seq<Turn> {
    seq(n, _ => Turn(false, 0, [Took(0x1_0000)], 0))
  }

  lemma TakesPart(part: nat)
    requires part < 0x1_0000
    ensures SendOnce(part, [Took(0x1_0000)]) == Sent(part)
  {
  }

  lemma {:induction false} TakenAll(len: nat, sent: nat, segment: nat, n: nat)
    requires sent < len && len - sent <= n && segment > 0 && (segment < 0x1_0000 || len < 0x1_0000)
    ensures MemoryRun(len, sent, segment, TakingAll(n)) == (len, Complete)
    decreases n
  {
    hide SendOnce;
    var part, turns := Least(segment, len - sent), TakingAll(n);
    TakesPart(part);
    assert turns[0] == Turn(false, 0, [Took(0x1_0000)], 0) && turns[1..] == TakingAll(n - 1);
    hide TakingAll;
    if sent + part < len {
      TakenAll(len, sent + part, segment, n - 1);
    }
  }

  /** Nothing to send at all reads as a vanished peer, whatever the peer does. */
  lemma {:induction false} NothingToSend(len: nat, segment: nat, turns: seq<Turn>)
    requires Length16(Least(segment, len)) == 0
    ensures MemoryRun(len, 0, segment, turns).0 == 0 && MemoryRun(len, 0, segment, turns).1 != Complete
    decreases |turns|
  {
    if turns != [] {
      NothingToSend(len, segment, turns[1..]);
    }
  }

  /**
   What the cut does to any run: nothing is sent if the first length is cut to zero, and with source and
   segment both of 65536 or more, as much is left.
   */
  predicate CutShows(len: nat, segment: nat, counted: nat, end: End) {
    && (Length16(Least(segment, len)) == 0 ==> counted == 0 && end != Complete)
    && (len >= 0x1_0000 && segment >= 0x1_0000 ==> end != Complete && counted <= len - 0x1_0000)
  }

  lemma CutShowsOnRuns(len: nat, segment: nat, turns: seq<Turn>)
    ensures var (counted, end) := MemoryRun(len, 0, segment, turns); CutShows(len, segment, counted, end)
  {
    hide MemoryRun, Length16;
    if Length16(Least(segment, len)) == 0 {
      NothingToSend(len, segment, turns);
    }
    if len >= 0x1_0000 && segment >= 0x1_0000 {
      NeverCompletes(len, 0, segment, turns);
    }
  }

  /**
   An active transfer from memory can complete exactly when source and segment are not empty and one of
   them is below 65536; otherwise no script completes it, and of a source and segment both of 65536 or more
   at least 65536 elements are always left. It can deliver anything at all exactly when the first length it
   asks for is not cut to zero.
   */
  lemma ActiveMemoryCompletes(len: nat, segment: nat)
    ensures (exists turns :: MemoryRun(len, 0, segment, turns).1 == Complete) <==>
      len > 0 && segment > 0 && (segment < 0x1_0000 || len < 0x1_0000)
    ensures (exists turns :: MemoryRun(len, 0, segment, turns).0 > 0) <==> Length16(Least(segment, len)) > 0
    ensures len >= 0x1_0000 && segment >= 0x1_0000 ==>
      forall turns :: MemoryRun(len, 0, segment, turns).0 <= len - 0x1_0000
  {
    hide MemoryRun;
    forall turns
      ensures var (counted, end) := MemoryRun(len, 0, segment, turns); CutShows(len, segment, counted, end)
    {
      CutShowsOnRuns(len, segment, turns);
    }
    if Length16(Least(segment, len)) > 0 {
      FirstSend(len, segment);
    }
    if len > 0 && segment > 0 && (segment < 0x1_0000 || len < 0x1_0000) {
      TakenAll(len, 0, segment, len);
    }
  }

  lemma FirstSend(len: nat, segment: nat)
    requires Length16(Least(segment, len)) > 0
    ensures MemoryRun(len, 0, segment, TakingAll(1)).0 > 0
  {
    var n := Length16(Least(segment, len));
    assert TakingAll(1) == [Turn(false, 0, [Took(0x1_0000)], 0)] && TakingAll(1)[1..] == [];
    assert SendOnce(Least(segment, len), TakingAll(1)[0].replies) == Sent(n);
  }

  /** Lengths at which the cut shows, and one at which it does not. */
  lemma CutLengths()
    ensures forall turns :: MemoryRun(65536, 0, 100000, turns).0 == 0
    ensures forall turns :: MemoryRun(100000, 0, 70000, turns).1 != Complete
    ensures exists turns :: MemoryRun(10, 0, 65536, turns).1 == Complete
  {
    ActiveMemoryCompletes(65536, 100000);
    ActiveMemoryCompletes(100000, 70000);
    ActiveMemoryCompletes(10, 65536);
  }

  // ----- the active loops -----

  /**
   The active loop over memory: one `send` per turn, and what it left over is sent again on the next one.
   Every length is cut to 16 bits, and one that is cut to zero reads as a vanished peer.
   */
  method SendActiveMemory<T>(source: seq<T>, segment: nat, turns: seq<Turn>)
      returns (sended: nat, end: End, ghost accepted: seq<T>)
    ensures Delivered(source, accepted, sended) && sended == |accepted|
    ensures end != Refused && (end == Complete ==> sended == |source|)
    ensures (sended, end) == MemoryRun(|source|, 0, segment, turns)
    ensures CutShows(|source|, segment, sended, end)
  {
    hide SendOnce, Length16, CutShows;
    CutShowsOnRuns(|source|, segment, turns);
    sended, end, accepted := 0, UnderWay, [];
    ghost var result := MemoryRun(|source|, 0, segment, turns);
    assert turns[0..] == turns;
    for i := 0 to |turns|
      invariant end == UnderWay
      invariant sended <= |source| && (source != [] ==> sended < |source|)
      invariant accepted == source[..sended]
      invariant result == MemoryRun(|source|, sended, segment, turns[i..])
    {
      assert turns[i..][1..] == turns[i + 1..];
      if turns[i].aborted {
        end := Aborted;
        return;
      }
      match SendOnce(Least(segment, |source| - sended), turns[i].replies) {
        case NoAnswer => return;
        case Failed =>
          end := BrokenOff;
          return;
        case Retry =>
        case Sent(n) =>
          if n == 0 {
            end := PeerGone;
            return;
          }
          PartArrives(source, sended, n, n);
          accepted := accepted + source[sended..sended + n];
          sended := sended + n;
          if |source| - sended == 0 {
            end := Complete;
            return;
          }
      }
    }
    assert turns[|turns|..] == [];
  }

  /**
   The active loop over a file: each turn reads on, whatever became of the chunk before. It counts up to the
   length only when no chunk was cut short.
   */
  method SendActiveFile<T>(source: seq<T>, segment: nat, turns: seq<Turn>)
      returns (sended: nat, end: End, ghost accepted: seq<T>)
    ensures accepted == FileAccepted(source, 0, 0, segment, turns)
    ensures sended == |accepted| <= |source|
    ensures end != Refused && (end == Complete ==> accepted == source)
    ensures (sended, end) == TransferRun(Job(Active, true, |source|, segment), 0, 0, turns)
  {
    hide FileAccepted, SendOnce, Chunk, TransferRun;
    ghost var job := Job(Active, true, |source|, segment);
    ghost var result := TransferRun(job, 0, 0, turns);
    sended, end, accepted := 0, UnderWay, [];
    var filePos: nat := 0;
    ghost var whole := FileAccepted(source, 0, 0, segment, turns);
    ghost var rest := whole;
    assert turns[0..] == turns;
    for i := 0 to |turns|
      invariant end == UnderWay
      invariant sended == |accepted| <= filePos <= |source|
      invariant sended == filePos ==> accepted == source[..sended]
      invariant rest == FileAccepted(source, filePos, sended, segment, turns[i..])
      invariant whole == accepted + rest
      invariant result == TransferRun(job, filePos, sended, turns[i..])
    {
      OneTurn(job, filePos, sended, turns, i);
      ghost var tail := FileStep(source, filePos, sended, segment, turns, i);
      if turns[i].aborted {
        end := Aborted;
        return;
      }
      var from, part := filePos, Chunk(|source|, filePos, segment, turns[i]);
      filePos := filePos + part;
      match SendOnce(part, turns[i].replies) {
        case NoAnswer => return;
        case Failed =>
          end := BrokenOff;
          return;
        case Retry =>
        case Sent(n) =>
          if n == 0 {
            end := PeerGone;
            return;
          }
          Regroup(accepted, source[from..from + n], tail);
          PartArrives(source, from, n, n);
          accepted := accepted + source[from..from + n];
          sended := sended + n;
          if |source| - sended == 0 {
            assert source[..sended] == source;
            end := Complete;
            return;
          }
      }
      rest := tail;
    }
    FileEnd(source, filePos, sended, segment);
    NoTurn(job, filePos, sended);
    assert turns[|turns|..] == [];
  }

  lemma FileEnd<T>(source: seq<T>, pos: nat, sent: nat, segment: nat)
    requires sent <= pos <= |source|
    ensures FileAccepted(source, pos, sent, segment, []) == []
  {
  }

  /** What one turn delivers, and what is left for the turns behind it. */
  lemma FileStep<T>(source: seq<T>, pos: nat, sent: nat, segment: nat, turns: seq<Turn>, i: nat)
      returns (tail: seq<T>)
    requires sent <= pos <= |source| && i < |turns|
    ensures var rest := FileAccepted(source, pos, sent, segment, turns[i..]);
      if turns[i].aborted then rest == []
      else
        var n := Chunk(|source|, pos, segment, turns[i]);
        match SendOnce(n, turns[i].replies)
        case NoAnswer => rest == []
        case Failed => rest == []
        case Retry => rest == tail == FileAccepted(source, pos + n, sent, segment, turns[i + 1..])
        case Sent(k) =>
          if k == 0 then rest == []
          else
            && rest == source[pos..pos + k] + tail
            && (sent + k == |source| ==> tail == [])
            && (sent + k < |source| ==> tail == FileAccepted(source, pos + n, sent + k, segment, turns[i + 1..]))
  {
    hide Chunk, SendOnce;
    var left := turns[i..];
    assert left[1..] == turns[i + 1..];
    tail := [];
    if !turns[i].aborted {
      var n := Chunk(|source|, pos, segment, turns[i]);
      match SendOnce(n, turns[i].replies) {
        case Retry =>
          AfterRetry(source, pos, sent, segment, left, n);
          tail := FileAccepted(source, pos + n, sent, segment, left[1..]);
        case Sent(k) =>
          if k > 0 {
            tail := AfterSend(source, pos, sent, segment, left, n, k);
          }
        case _ =>
      }
    }
  }

  /** What an active file transfer delivers from file position `pos` on, after `sent` elements. */
  function FileAccepted<T>(source: seq<T>, pos: nat, sent: nat, segment: nat, turns: seq<Turn>): seq<T>
    requires sent <= pos <= |source|
    decreases |turns|
  {
    if turns == [] || turns[0].aborted then []
    else
      var n := Chunk(|source|, pos, segment, turns[0]);
      match SendOnce(n, turns[0].replies)
      case NoAnswer => []
      case Failed => []
      case Retry => FileAccepted(source, pos + n, sent, segment, turns[1..])
      case Sent(k) =>
        if k == 0 then []
        else if sent + k == |source| then source[pos..pos + k]
        else source[pos..pos + k] + FileAccepted(source, pos + n, sent + k, segment, turns[1..])
  }

  /** Every turn that delivers something finds the file position at the count of what was delivered. */
  predicate NothingDroppedBefore(len: nat, pos: nat, sent: nat, segment: nat, turns: seq<Turn>)
    requires sent <= pos <= len
    decreases |turns|
  {
    if turns == [] || turns[0].aborted then true
    else
      var n := Chunk(len, pos, segment, turns[0]);
      match SendOnce(n, turns[0].replies)
      case NoAnswer => true
      case Failed => true
      case Retry => NothingDroppedBefore(len, pos + n, sent, segment, turns[1..])
      case Sent(k) =>
        k == 0 ||
        (pos == sent && (sent + k == len || NothingDroppedBefore(len, pos + n, sent + k, segment, turns[1..])))
  }

  /** The file position from which something is delivered in the place of something dropped, for the first time. */
  function FirstMisplaced(len: nat, pos: nat, sent: nat, segment: nat, turns: seq<Turn>): (d: nat)
    requires sent <= pos <= len && !NothingDroppedBefore(len, pos, sent, segment, turns)
    ensures sent < d < len
    decreases |turns|
  {
    var n := Chunk(len, pos, segment, turns[0]);
    match SendOnce(n, turns[0].replies)
    case Retry => FirstMisplaced(len, pos + n, sent, segment, turns[1..])
    case Sent(k) => if pos > sent then pos else FirstMisplaced(len, pos + n, sent + k, segment, turns[1..])
  }

  /** With the first `sent` elements delivered, `rest` goes on where they stop. */
  ghost predicate Continues<T>(source: seq<T>, sent: nat, rest: seq<T>)
    requires sent <= |source|
  {
    source[..sent] + rest <= source
  }

  lemma InPlace<T>(source: seq<T>, sent: nat, k: nat, tail: seq<T>)
    requires sent + k <= |source|
    ensures Continues(source, sent, source[sent..sent + k] + tail) <==> Continues(source, sent + k, tail)
  {
    assert source[..sent] + (source[sent..sent + k] + tail) == source[..sent + k] + tail;
  }

  lemma NothingMore<T>(source: seq<T>, sent: nat)
    ensures sent <= |source| ==> Continues(source, sent, [])
  {
  }

  lemma OutOfPlace<T>(source: seq<T>, sent: nat, pos: nat, k: nat, tail: seq<T>)
    requires sent < pos && k > 0 && pos + k <= |source| && source[sent] != source[pos]
    ensures !Continues(source, sent, source[pos..pos + k] + tail)
  {
    assert (source[..sent] + (source[pos..pos + k] + tail))[sent] == source[pos];
  }

  /** The two ways to deliver something on a turn: as the last of the file, or with more to come. */
  lemma AfterSend<T>(source: seq<T>, pos: nat, sent: nat, segment: nat, turns: seq<Turn>, n: nat, k: nat)
      returns (tail: seq<T>)
    requires sent <= pos <= |source| && turns != [] && !turns[0].aborted
    requires n == Chunk(|source|, pos, segment, turns[0]) && SendOnce(n, turns[0].replies) == Sent(k) && k > 0
    ensures FileAccepted(source, pos, sent, segment, turns) == source[pos..pos + k] + tail
    ensures tail == if sent + k == |source| then [] else FileAccepted(source, pos + n, sent + k, segment, turns[1..])
  {
    hide Chunk, SendOnce;
    tail := if sent + k == |source| then [] else FileAccepted(source, pos + n, sent + k, segment, turns[1..]);
    assert source[pos..pos + k] + [] == source[pos..pos + k];
  }

  /** Whatever the file holds, what is delivered is in its place when nothing was dropped before it. */
  lemma {:induction false} InOrder<T>(source: seq<T>, pos: nat, sent: nat, segment: nat, turns: seq<Turn>)
    requires sent <= pos <= |source| && NothingDroppedBefore(|source|, pos, sent, segment, turns)
    ensures Continues(source, sent, FileAccepted(source, pos, sent, segment, turns))
    decreases |turns|
  {
    hide Chunk, SendOnce, Continues;
    NothingMore(source, sent);
    if turns != [] && !turns[0].aborted {
      var n := Chunk(|source|, pos, segment, turns[0]);
      match SendOnce(n, turns[0].replies) {
        case Retry => InOrder(source, pos + n, sent, segment, turns[1..]);
        case Sent(k) =>
          if k > 0 {
            var tail := AfterSend(source, pos, sent, segment, turns, n, k);
            NothingMore(source, sent + k);
            if sent + k != |source| {
              InOrder(source, pos + n, sent + k, segment, turns[1..]);
            }
            InPlace(source, sent, k, tail);
          }
        case _ =>
      }
    }
  }

  /** The first turn of a script that delivers something out of place: it is that turn, or one behind it. */
  lemma MisplacedStep(len: nat, pos: nat, sent: nat, segment: nat, turns: seq<Turn>) returns (n: nat, a: Answer)
    requires sent <= pos <= len && !NothingDroppedBefore(len, pos, sent, segment, turns)
    ensures turns != [] && !turns[0].aborted
    ensures n == Chunk(len, pos, segment, turns[0]) && a == SendOnce(n, turns[0].replies)
    ensures a.Retry? || (a.Sent? && a.n > 0)
    ensures a.Retry? ==>
      && !NothingDroppedBefore(len, pos + n, sent, segment, turns[1..])
      && FirstMisplaced(len, pos, sent, segment, turns) == FirstMisplaced(len, pos + n, sent, segment, turns[1..])
    ensures a.Sent? && pos > sent ==> FirstMisplaced(len, pos, sent, segment, turns) == pos
    ensures a.Sent? && pos == sent ==>
      && sent + a.n != len && !NothingDroppedBefore(len, pos + n, sent + a.n, segment, turns[1..])
      && FirstMisplaced(len, pos, sent, segment, turns) ==
           FirstMisplaced(len, pos + n, sent + a.n, segment, turns[1..])
  {
    hide Chunk, SendOnce;
    n := Chunk(len, pos, segment, turns[0]);
    a := SendOnce(n, turns[0].replies);
  }

  lemma AfterRetry<T>(source: seq<T>, pos: nat, sent: nat, segment: nat, turns: seq<Turn>, n: nat)
    requires sent <= pos <= |source| && turns != [] && !turns[0].aborted
    requires n == Chunk(|source|, pos, segment, turns[0]) && SendOnce(n, turns[0].replies).Retry?
    ensures FileAccepted(source, pos, sent, segment, turns) == FileAccepted(source, pos + n, sent, segment, turns[1..])
  {
    hide Chunk, SendOnce;
  }

  /** A file shows the drop when the element delivered out of place differs from all before it. */
  lemma {:induction false} OutOfOrder<T>(source: seq<T>, pos: nat, sent: nat, segment: nat, turns: seq<Turn>)
    requires sent <= pos <= |source| && !NothingDroppedBefore(|source|, pos, sent, segment, turns)
    requires var d := FirstMisplaced(|source|, pos, sent, segment, turns);
      forall j :: 0 <= j < d ==> source[j] != source[d]
    ensures !Continues(source, sent, FileAccepted(source, pos, sent, segment, turns))
    decreases |turns|
  {
    hide Chunk, SendOnce, Continues, NothingDroppedBefore, FirstMisplaced, FileAccepted;
    var n, a := MisplacedStep(|source|, pos, sent, segment, turns);
    if a.Retry? {
      AfterRetry(source, pos, sent, segment, turns, n);
      OutOfOrder(source, pos + n, sent, segment, turns[1..]);
    } else {
      var tail := AfterSend(source, pos, sent, segment, turns, n, a.n);
      if pos > sent {
        OutOfPlace(source, sent, pos, a.n, tail);
      } else {
        OutOfOrder(source, pos + n, sent + a.n, segment, turns[1..]);
        InPlace(source, sent, a.n, tail);
      }
    }
  }

  /** The file of that length which has one byte unlike all others, at `d`. */
  function Marked(len: nat, d: nat): (r: seq<BinData.byte>)
    ensures |r| == len && forall i :: 0 <= i < len ==> r[i] == if i == d then 'x' else '\0'
  {
    seq(len, i => if i == d then 'x' else '\0')
  }

  ghost predicate DeliversInOrder(len: nat, segment: nat, turns: seq<Turn>) {
    forall source: seq<BinData.byte> :: |source| == len ==> FileAccepted(source, 0, 0, segment, turns) <= source
  }

  /**
   An active transfer delivers a prefix of every file of a length exactly when nothing is accepted after a
   chunk that was not taken whole.
   */
  lemma ActiveFileDelivery(len: nat, segment: nat, turns: seq<Turn>)
    ensures NothingDroppedBefore(len, 0, 0, segment, turns) <==> DeliversInOrder(len, segment, turns)
  {
    hide FileAccepted, NothingDroppedBefore, FirstMisplaced;
    if NothingDroppedBefore(len, 0, 0, segment, turns) {
      forall source: seq<BinData.byte> | |source| == len
        ensures FileAccepted(source, 0, 0, segment, turns) <= source
      {
        InOrder(source, 0, 0, segment, turns);
        FromStart(source, FileAccepted(source, 0, 0, segment, turns));
      }
    } else {
      var source := Marked(len, FirstMisplaced(len, 0, 0, segment, turns));
      OutOfOrder(source, 0, 0, segment, turns);
      FromStart(source, FileAccepted(source, 0, 0, segment, turns));
      assert !DeliversInOrder(len, segment, turns);
    }
  }

  lemma FromStart<T>(source: seq<T>, rest: seq<T>)
    ensures Continues(source, 0, rest) <==> rest <= source
  {
    assert source[..0] + rest == rest;
  }

  /** Two chunks of a file of four, the first of them cut short: its second byte never arrives. */
  lemma ActiveFileDropsByte()
    ensures var turns := [Turn(false, 2, [Took(1)], 0), Turn(false, 2, [Took(2)], 0)];
      && FileAccepted("abcd", 0, 0, 2, turns) == "acd"
      && !NothingDroppedBefore(4, 0, 0, 2, turns)
  {
    var turns := [Turn(false, 2, [Took(1)], 0), Turn(false, 2, [Took(2)], 0)];
    assert turns[1..] == [turns[1]] && turns[1..][1..] == [];
    assert SendOnce(2, [Took(1)]) == Sent(1) && SendOnce(2, [Took(2)]) == Sent(2);
    assert FileAccepted("abcd", 2, 1, 2, turns[1..]) == "cd";
  }

  // ----- SendData -----

  /**
   The sending thread: opens the data connection in the session's mode, runs the matching loop, and
   reports the result on the control connection. `abortFlag` is what it finds the flag to be after the loop.
   */
  method SendData<T>(source: seq<T>, fromFile: bool, isPassive: bool, connected: bool, passiveSock: int, peerSock: int,
                     segment: nat, turns: seq<Turn>, abortFlag: bool)
      returns (sended: nat, end: End, responses: seq<int>, ghost accepted: seq<T>)
    ensures isPassive || !fromFile ==> Delivered(source, accepted, sended)
    ensures !isPassive && fromFile && NothingDroppedBefore(|source|, 0, 0, segment, turns) ==> accepted <= source
    ensures responses == Responses(end, abortFlag)
    ensures end == Refused <==> if isPassive then passiveSock < 0 else !connected
    ensures end == Complete ==> accepted == source
    ensures end == Refused ==> accepted == [] && sended == 0
    ensures end != Refused ==>
      (sended, end) ==
        TransferRun(Job(if isPassive then Passive(peerSock) else Active, fromFile, |source|, segment), 0, 0, turns)
  {
    hide FileAccepted, NothingDroppedBefore, Responses, TransferRun;
    if !isPassive {
      if !connected {
        return 0, Refused, Responses(Refused, abortFlag), [];
      }
      if !fromFile {
        sended, end, accepted := SendActiveMemory(source, segment, turns);
      } else {
        sended, end, accepted := SendActiveFile(source, segment, turns);
        if NothingDroppedBefore(|source|, 0, 0, segment, turns) {
          InOrder(source, 0, 0, segment, turns);
          FromStart(source, accepted);
        }
      }
    } else {
      if passiveSock < 0 {
        return 0, Refused, Responses(Refused, abortFlag), [];
      }
      sended, end, accepted := SendPassive(source, fromFile, segment, peerSock, turns);
    }
    responses := Responses(end, abortFlag);
  }
}
