/**
 What a script of replies makes of an FTP transfer: of one send, of one turn of a chunk loop, and of a whole
 loop, in active and in passive mode, from memory and from a file.
 */
module FtpScript {
  import opened Basics

  const EAGAIN := 11

  /** One answer of the kernel to `send`: it takes up to `n` elements, or fails. */
  datatype Reply = Took(n: nat) | Fails(errno: int)
  {
    /** The sender goes on: something was taken, or it is to try again. */
    predicate GoesOn() {
      match this
      case Took(n) => n > 0
      case Fails(errno) => errno == EAGAIN
    }
  }

  /** One turn of a chunk loop: the abort flag it reads, what the file hands out, and the kernel's replies. */
  datatype Turn = Turn(aborted: bool, readable: nat, replies: seq<Reply>, stale: int)

  /** How a transfer loop stopped. */
  datatype End = Complete | PeerGone | BrokenOff | Aborted | UnderWay | Refused

  // ----- the send of a control-channel socket -----

  /** How `Socket::Send` stops; `Pending` when the script runs out first. */
  datatype SendEnd = Filled | Gone | Broken(errno: int) | Pending

  /** How much of `len` elements is taken, and how the send stops. */
  function SendRun(len: nat, replies: seq<Reply>): (r: (nat, SendEnd))
    ensures r.0 <= len && (r.0 == len <==> r.1 == Filled)
    decreases |replies|
  {
    if len == 0 then (0, Filled)
    else if replies == [] then (0, Pending)
    else
      match replies[0]
      case Took(n) =>
        if n == 0 then (0, Gone)
        else
          var k := Least(n, len);
          var (taken, end) := SendRun(len - k, replies[1..]);
          (k + taken, end)
      case Fails(errno) => if errno == EAGAIN then SendRun(len, replies[1..]) else (0, Broken(errno))
  }

  function TakenBy(replies: seq<Reply>): nat {
    if replies == [] then 0
    else (if replies[0].Took? then replies[0].n else 0) + TakenBy(replies[1..])
  }

  ghost predicate AllGoOn(replies: seq<Reply>) {
    forall i :: 0 <= i < |replies| ==> replies[i].GoesOn()
  }

  /** What the replies say: the first `k` let the send go on, and then it is filled, or the next one stops it. */
  ghost predicate StopsAt(len: nat, replies: seq<Reply>, k: nat, taken: nat, end: SendEnd) {
    && k <= |replies| && AllGoOn(replies[..k]) && taken == Least(len, TakenBy(replies[..k]))
    && (end == Filled <==> TakenBy(replies[..k]) >= len)
    && (end == Pending <==> TakenBy(replies[..k]) < len && k == |replies|)
    && (end == Gone <==> TakenBy(replies[..k]) < len && k < |replies| && replies[k] == Took(0))
    && (end.Broken? ==> k < |replies| && replies[k] == Fails(end.errno) && end.errno != EAGAIN)
    && (TakenBy(replies[..k]) < len && k < |replies| ==> !replies[k].GoesOn())
  }

  lemma FrontGoesOn(replies: seq<Reply>, k: nat)
    requires replies != [] && k < |replies|
    ensures var rest := replies[1..];
      && replies[..k + 1][1..] == rest[..k] && replies[..k + 1][0] == replies[0]
      && TakenBy(replies[..k + 1]) == (if replies[0].Took? then replies[0].n else 0) + TakenBy(rest[..k])
      && (AllGoOn(replies[..k + 1]) <==> replies[0].GoesOn() && AllGoOn(rest[..k]))
  {
    var rest, more := replies[1..], replies[..k + 1];
    assert more[1..] == rest[..k] && more[0] == replies[0];
    assert forall i :: 1 <= i < |more| ==> more[i] == rest[..k][i - 1];
    assert forall i :: 0 <= i < k ==> rest[..k][i] == more[i + 1];
  }

  /** A send stops where its replies say. */
  lemma {:induction false} SendStops(len: nat, replies: seq<Reply>) returns (k: nat)
    ensures StopsAt(len, replies, k, SendRun(len, replies).0, SendRun(len, replies).1)
    decreases |replies|
  {
    k := 0;
    assert replies[..0] == [] && TakenBy([]) == 0;
    if len > 0 && replies != [] && replies[0].GoesOn() {
      var rest := replies[1..];
      var left := if replies[0].Took? then len - Least(replies[0].n, len) else len;
      var j := SendStops(left, rest);
      FrontGoesOn(replies, j);
      hide AllGoOn, TakenBy;
      k := j + 1;
    }
  }

  /** The replies take `len` elements, sooner or later. */
  ghost predicate Takes(replies: seq<Reply>, len: nat) {
    exists k :: 0 <= k <= |replies| && AllGoOn(replies[..k]) && TakenBy(replies[..k]) >= len
  }

  lemma {:induction false} FilledByTakers(len: nat, replies: seq<Reply>, k: nat)
    requires k <= |replies| && AllGoOn(replies[..k]) && TakenBy(replies[..k]) >= len
    ensures SendRun(len, replies) == (len, Filled)
    decreases k
  {
    assert replies[..0] == [] && TakenBy([]) == 0;
    if len > 0 {
      FrontGoesOn(replies, k - 1);
      hide AllGoOn, TakenBy;
      var left := if replies[0].Took? then len - Least(replies[0].n, len) else len;
      FilledByTakers(left, replies[1..], k - 1);
    }
  }

  /** A send is filled exactly when its replies take all of it. */
  lemma SendFilled(len: nat, replies: seq<Reply>)
    ensures SendRun(len, replies).1 == Filled <==> Takes(replies, len)
  {
    hide SendRun, AllGoOn, TakenBy;
    if k: nat :| k <= |replies| && AllGoOn(replies[..k]) && TakenBy(replies[..k]) >= len {
      FilledByTakers(len, replies, k);
    } else {
      var k := SendStops(len, replies);
    }
  }

  // ----- one send of an active transfer -----

  /** `TCPSocket::Send` takes its length as an unsigned 16-bit number. */
  function Length16(len: nat): nat {
    len % 0x1_0000
  }

  /** The one reply a single `send` gets; `NoAnswer` when the script ran out. */
  function SendOnce(len: nat, replies: seq<Reply>): (a: Answer)
    ensures a.Sent? ==> a.n <= Length16(len) <= len
  {
    if replies == [] then NoAnswer
    else
      match replies[0]
      case Took(n) => Sent(Least(n, Length16(len)))
      case Fails(errno) => if errno == EAGAIN then Retry else Failed
  }

  datatype Answer = NoAnswer | Sent(n: nat) | Retry | Failed

  // ----- one turn -----

  /** The two kinds of data connection; a passive one has the descriptor that was accepted. */
  datatype Link = Active | Passive(fd: int)

  /** What the send of one turn comes to. */
  datatype Outcome = Advances(n: nat) | Retries | Stops(end: End)

  function TurnOutcome(link: Link, part: nat, turn: Turn): (o: Outcome)
    ensures o.Advances? ==> 0 < o.n <= part
  {
    match link
    case Active =>
      (match SendOnce(part, turn.replies)
       case NoAnswer => Stops(UnderWay)
       case Failed => Stops(BrokenOff)
       case Retry => Retries
       case Sent(n) => if n == 0 then Stops(PeerGone) else Advances(n))
    case Passive(fd) =>
      if part == 0 then Stops(PeerGone)
      else if fd < 0 then if turn.stale == EAGAIN then Retries else Stops(BrokenOff)
      else
        match SendRun(part, turn.replies).1
        case Filled => Advances(part)
        case Gone => Stops(PeerGone)
        case Broken(_) => Stops(BrokenOff)
        case Pending => Stops(UnderWay)
  }

  /**
   What one turn of an active transfer comes to: its one reply decides. A taken length of zero, or a part
   whose length is cut to zero, reads as a vanished peer.
   */
  lemma ActiveOutcome(part: nat, turn: Turn)
    ensures var o, replies := TurnOutcome(Active, part, turn), turn.replies;
      && (o == Stops(UnderWay) <==> replies == [])
      && (o == Retries <==> replies != [] && replies[0] == Fails(EAGAIN))
      && (o == Stops(BrokenOff) <==> replies != [] && replies[0].Fails? && replies[0].errno != EAGAIN)
      && (o == Stops(PeerGone) <==> replies != [] && replies[0].Took? && (replies[0].n == 0 || part % 65536 == 0))
      && (o.Advances? ==> replies != [] && replies[0].Took? && o.n == Least(replies[0].n, part % 65536))
      && o !in {Stops(Aborted), Stops(Complete), Stops(Refused)}
  {
  }

  /**
   What one turn of a passive transfer comes to, on a good descriptor and for something to send: all of the
   part, when the replies take it; otherwise the first reply that does not let the send go on decides.
   */
  lemma PassiveOutcome(fd: int, part: nat, turn: Turn) returns (k: nat)
    requires fd >= 0 && part > 0
    ensures k <= |turn.replies| && AllGoOn(turn.replies[..k])
    ensures var o, replies := TurnOutcome(Passive(fd), part, turn), turn.replies;
      && (o == Advances(part) <==> TakenBy(replies[..k]) >= part)
      && (o == Stops(UnderWay) <==> TakenBy(replies[..k]) < part && k == |replies|)
      && (o == Stops(PeerGone) <==> TakenBy(replies[..k]) < part && k < |replies| && replies[k] == Took(0))
      && (o == Stops(BrokenOff) <==>
            TakenBy(replies[..k]) < part && k < |replies| && replies[k].Fails? && replies[k].errno != EAGAIN)
      && o in {Advances(part), Stops(UnderWay), Stops(PeerGone), Stops(BrokenOff)}
    ensures TurnOutcome(Passive(fd), part, turn) == Advances(part) <==> Takes(turn.replies, part)
  {
    hide SendRun, AllGoOn, TakenBy;
    k := SendStops(part, turn.replies);
    SendFilled(part, turn.replies);
    hide Takes;
  }

  /** On a bad descriptor nothing is asked of the kernel: whatever error was left over decides. */
  lemma BadDescriptorOutcome(fd: int, part: nat, turn: Turn)
    requires fd < 0
    ensures var o := TurnOutcome(Passive(fd), part, turn);
      && (part == 0 ==> o == Stops(PeerGone))
      && (part > 0 ==> o == if turn.stale == EAGAIN then Retries else Stops(BrokenOff))
  {
  }

  // ----- a whole loop -----

  /** What a read of the file hands out: no more than is asked for, is readable, and is left. */
  function Chunk(len: nat, pos: nat, segment: nat, turn: Turn): (n: nat)
    requires pos <= len
    ensures pos + n <= len && n <= segment && n <= turn.readable
    ensures n < segment && n < turn.readable ==> pos + n == len
  {
    Least(turn.readable, Least(segment, len - pos))
  }

  /** A transfer: over which link, of a file or of memory, of what length, in parts of what size. */
  datatype Job = Job(link: Link, fromFile: bool, len: nat, segment: nat)
  {
    /** A state of the loop: the file position, and the count of what was sent. */
    predicate At(pos: nat, sent: nat) {
      sent <= len && (fromFile ==> sent <= pos <= len)
    }

    /** What a turn has to send: of a file what it hands out next, from memory what is not sent yet. */
    function Part(pos: nat, sent: nat, turn: Turn): (n: nat)
      requires At(pos, sent)
      ensures sent + n <= len && At(Moved(pos, n), sent + n) && At(Moved(pos, n), sent)
    {
      if fromFile then Chunk(len, pos, segment, turn) else Least(segment, len - sent)
    }

    /** Reading moves a file on, whatever becomes of what was read. */
    function Moved(pos: nat, part: nat): nat {
      if fromFile then pos + part else pos
    }
  }

  /** How a loop goes on from a state: what it counts up to, and how it ends. */
  function TransferRun(job: Job, pos: nat, sent: nat, turns: seq<Turn>): (r: (nat, End))
    requires job.At(pos, sent)
    decreases |turns|
  {
    if turns == [] then (sent, UnderWay)
    else if turns[0].aborted then (sent, Aborted)
    else
      var part := job.Part(pos, sent, turns[0]);
      match TurnOutcome(job.link, part, turns[0])
      case Stops(end) => (sent, end)
      case Retries => TransferRun(job, job.Moved(pos, part), sent, turns[1..])
      case Advances(n) =>
        if sent + n == job.len then (job.len, Complete)
        else TransferRun(job, job.Moved(pos, part), sent + n, turns[1..])
  }

  // ----- where a loop ends -----

  /** The state before turn `i`. */
  function Progress(job: Job, turns: seq<Turn>, i: nat): (r: (nat, nat))
    requires i <= |turns|
    ensures job.At(r.0, r.1)
  {
    if i == 0 then (0, 0)
    else
      var (pos, sent) := Progress(job, turns, i - 1);
      var part := job.Part(pos, sent, turns[i - 1]);
      match TurnOutcome(job.link, part, turns[i - 1])
      case Stops(_) => (pos, sent)
      case Retries => (job.Moved(pos, part), sent)
      case Advances(n) => (job.Moved(pos, part), sent + n)
  }

  function OutcomeAt(job: Job, turns: seq<Turn>, i: nat): Outcome
    requires i < |turns|
  {
    var (pos, sent) := Progress(job, turns, i);
    TurnOutcome(job.link, job.Part(pos, sent, turns[i]), turns[i])
  }

  /** Turn `i` is not the last. */
  ghost predicate GoesOnAt(job: Job, turns: seq<Turn>, i: nat)
    requires i < |turns|
  {
    && !turns[i].aborted
    && match OutcomeAt(job, turns, i)
       case Stops(_) => false
       case Retries => true
       case Advances(n) => Progress(job, turns, i).1 + n < job.len
  }

  /** The loop gets to turn `stop`, or the end of the script, and ends there as that turn says. */
  ghost predicate EndsAt(job: Job, turns: seq<Turn>, stop: nat, counted: nat, end: End) {
    && stop <= |turns| && (forall i :: 0 <= i < stop ==> GoesOnAt(job, turns, i))
    && if stop == |turns| then end == UnderWay && counted == Progress(job, turns, stop).1
       else if turns[stop].aborted then end == Aborted && counted == Progress(job, turns, stop).1
       else
         match OutcomeAt(job, turns, stop)
         case Stops(e) => end == e && counted == Progress(job, turns, stop).1
         case Retries => false
         case Advances(n) => end == Complete && counted == Progress(job, turns, stop).1 + n == job.len
  }

  /** How the loop goes on from turn `i`. */
  ghost function RunFrom(job: Job, turns: seq<Turn>, i: nat): (nat, End)
    requires i <= |turns|
  {
    var (pos, sent) := Progress(job, turns, i);
    TransferRun(job, pos, sent, turns[i..])
  }

  lemma GoOnStep(job: Job, turns: seq<Turn>, i: nat)
    requires i < |turns| && GoesOnAt(job, turns, i)
    ensures RunFrom(job, turns, i) == RunFrom(job, turns, i + 1)
  {
    hide TurnOutcome, Job.Part, Job.At;
    assert turns[i..][0] == turns[i] && turns[i..][1..] == turns[i + 1..];
  }

  lemma StopStep(job: Job, turns: seq<Turn>, i: nat)
    requires i <= |turns| && forall j :: 0 <= j < i ==> GoesOnAt(job, turns, j)
    requires i < |turns| ==> !GoesOnAt(job, turns, i)
    ensures EndsAt(job, turns, i, RunFrom(job, turns, i).0, RunFrom(job, turns, i).1)
  {
    hide TurnOutcome, Progress, Job.Part;
    if i < |turns| {
      assert turns[i..][0] == turns[i];
    }
  }

  lemma {:induction false} EndsFrom(job: Job, turns: seq<Turn>, i: nat) returns (stop: nat)
    requires i <= |turns| && forall j :: 0 <= j < i ==> GoesOnAt(job, turns, j)
    ensures EndsAt(job, turns, stop, RunFrom(job, turns, i).0, RunFrom(job, turns, i).1)
    decreases |turns| - i
  {
    hide GoesOnAt, EndsAt, RunFrom;
    if i < |turns| && GoesOnAt(job, turns, i) {
      GoOnStep(job, turns, i);
      stop := EndsFrom(job, turns, i + 1);
    } else {
      StopStep(job, turns, i);
      stop := i;
    }
  }

  /**
   Every run of a transfer loop: it goes on turn by turn until one is aborted, stops it or completes it, and
   is under way only when the script runs out, between two turns or inside a send.
   */
  lemma TransferEnds(job: Job, turns: seq<Turn>) returns (stop: nat)
    ensures var (counted, end) := TransferRun(job, 0, 0, turns); EndsAt(job, turns, stop, counted, end)
  {
    hide TransferRun, EndsAt, GoesOnAt;
    assert turns[0..] == turns;
    stop := EndsFrom(job, turns, 0);
  }

  // ----- transfers that complete -----

  /** The turn hands out `step` elements or all that are left, and its replies take whatever part it sends. */
  ghost predicate Helps(job: Job, step: nat, turn: Turn) {
    && !turn.aborted && (job.fromFile ==> turn.readable >= step)
    && Takes(turn.replies, job.segment)
  }

  lemma TakesLess(replies: seq<Reply>, len: nat, part: nat)
    requires Takes(replies, len) && part <= len
    ensures Takes(replies, part)
  {
    var k :| 0 <= k <= |replies| && AllGoOn(replies[..k]) && TakenBy(replies[..k]) >= len;
    hide AllGoOn, TakenBy;
    assert TakenBy(replies[..k]) >= part;
  }

  lemma HelpfulTurn(job: Job, step: nat, pos: nat, sent: nat, turn: Turn)
    requires job.link.Passive? && job.link.fd >= 0 && 0 < step <= job.segment && Helps(job, step, turn)
    requires job.At(pos, sent) && sent < job.len && (job.fromFile ==> pos == sent)
    ensures !turn.aborted
    ensures var part := job.Part(pos, sent, turn);
      && TurnOutcome(job.link, part, turn) == Advances(part)
      && (part >= step || sent + part == job.len)
  {
    hide AllGoOn, TakenBy, TurnOutcome;
    var part := job.Part(pos, sent, turn);
    TakesLess(turn.replies, job.segment, part);
    var k := PassiveOutcome(job.link.fd, part, turn);
  }

  lemma OneTurnLess(n: nat, step: nat)
    ensures if n == 0 then n * step == 0 else (n - 1) * step == n * step - step
  {
  }

  lemma {:induction false} CompletesFrom(job: Job, step: nat, pos: nat, sent: nat, turns: seq<Turn>)
    requires job.link.Passive? && job.link.fd >= 0 && 0 < step <= job.segment
    requires job.At(pos, sent) && sent < job.len && (job.fromFile ==> pos == sent)
    requires forall i :: 0 <= i < |turns| ==> Helps(job, step, turns[i])
    requires |turns| * step >= job.len - sent
    ensures TransferRun(job, pos, sent, turns) == (job.len, Complete)
    decreases |turns|
  {
    hide Helps, TurnOutcome;
    OneTurnLess(|turns|, step);
    HelpfulTurn(job, step, pos, sent, turns[0]);
    var part := job.Part(pos, sent, turns[0]);
    if sent + part < job.len {
      CompletesFrom(job, step, job.Moved(pos, part), sent + part, turns[1..]);
    }
  }

  /**
   A passive transfer on a good descriptor completes, from memory and from a file, when no turn is aborted,
   every turn's replies take what they are offered, and there are enough turns for the size of their parts.
   */
  lemma PassiveCompletes(job: Job, step: nat, turns: seq<Turn>)
    requires job.link.Passive? && job.link.fd >= 0 && 0 < step <= job.segment
    requires forall i :: 0 <= i < |turns| ==> Helps(job, step, turns[i])
    requires job.len > 0 && |turns| * step >= job.len
    ensures TransferRun(job, 0, 0, turns) == (job.len, Complete)
  {
    CompletesFrom(job, step, 0, 0, turns);
  }
}
