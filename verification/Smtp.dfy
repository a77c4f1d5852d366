/**
 The SMTP sessions: one status and one set of mail data per descriptor, commands read a word at a time,
 and a message body collected over any number of receives until its terminator has arrived.
 */
module Smtp {
  import opened Basics
  import opened Text
  import opened BinData

  datatype Status = GREETINGS | HELLO | MAIL_FROM | MAIL_RCPT | MAIL_DATA_START | MAIL_DATA | QUIT

  datatype MailData = MailData(host: string, mailFrom: string, mailTo: seq<string>, data: string)

  const NO_DATA := MailData("", "", [], "")

  /** What the two maps hold for one descriptor; a descriptor that is in neither has the initial session. */
  datatype Session = Session(status: Status, mail: MailData)

  const NO_SESSION := Session(GREETINGS, NO_DATA)

  /**
   `stray` is what the extraction of the command and of its argument yields when no line end is left in
   the data: the source then reads past its buffer, so nothing is assumed of them.
   */
  datatype Event =
    | Connect(fd: int)
    | Disconnect(fd: int)
    | Receive(fd: int, data: string, stray: (string, string))

  /** A stored message goes to its first recipient; `None` is the undefined access to an empty list. */
  datatype Effect =
    | Respond(code: int) | Hello(name: string) | Stored(recipient: Option<string>, body: string) | CloseSocket

  const NO_STRAY: (string, string) := ([], [])

  const TERMINATOR: string := ['\r', '\n', '.', '\r', '\n']

  /** A line with nothing but a dot, and the line ends around it. */
  ghost predicate Terminated(s: string) {
    Occurs(s, ['\r', '\n', '.', '\r', '\n'])
  }

  // ----- commands -----

  function Word(text: string, stray: string): string {
    if '\n' in text then CStr(text[..TokenLength(text)]) else stray
  }

  function AfterWord(text: string): string {
    if '\n' in text then text[TokenLength(text) + 1..] else []
  }

  /** The four-letter commands in the order they are tested; any other word leaves the status as it is. */
  function StatusAfter(status: Status, word: string): Status {
    var w := Lower(Trim(word));
    if w == "helo" then HELLO
    else if w == "mail" then MAIL_FROM
    else if w == "rcpt" then MAIL_RCPT
    else if w == "data" then MAIL_DATA_START
    else if w == "quit" then QUIT
    else status
  }

  /** The text between the first '<' and the last '>', with the size arithmetic wrapping as it does there. */
  function MailAddress(commandData: string): string {
    var first, last := FindFirst(commandData, '<'), FindLast(commandData, '>');
    Substr(commandData, first + 1, last - first - 1)
  }

  lemma MailAddressBetweenBrackets(before: string, address: string, after: string)
    requires '<' !in before && '>' !in after
    ensures MailAddress(before + ['<'] + (address + ['>'] + after)) == address
  {
    hide FindFirst, FindLast;
    var s := before + ['<'] + (address + ['>'] + after);
    FindFirstAt(before, '<', address + ['>'] + after);
    FindLastAt(before + ['<'] + address, '>', after);
    assert s == (before + ['<'] + address) + ['>'] + after;
    assert s[|before| + 1..|before| + 1 + |address|] == address;
  }

  /**
   Without the two brackets in their order the cut is at the one that is there, or at none: a missing
   bracket counts as one just outside, and a '>' that does not follow the '<' as none.
   */
  lemma MailAddressUnbracketed(a: string, b: string)
    requires '<' !in a && '>' !in b
    ensures '>' !in a && '<' !in b ==> MailAddress(a + b) == a + b
    ensures '>' !in a ==> MailAddress(a + ['<'] + b) == b
    ensures '<' !in b ==> MailAddress(a + ['>'] + b) == a
    ensures '>' in a ==> MailAddress(a + ['<'] + b) == b
  {
    hide FindFirst, FindLast;
    FindFirstAt(a, '<', b);
    FindLastAt(a, '>', b);
    var s, last := a + ['<'] + b, FindLast(a + ['<'] + b, '>');
    assert forall i :: |a| < i < |s| ==> s[i] == b[i - |a| - 1];
    assert s[|a| + 1..] == b;
    assert (a + ['>'] + b)[..|a|] == a;
  }

  // ----- one event -----

  datatype Done = Done(session: Session, effects: seq<Effect>)

  function ReceiveCommand(s: Session, data: string, stray: (string, string)): Done {
    var text := CStr(data);
    var argument := Word(AfterWord(text), stray.1);
    var status := StatusAfter(s.status, Word(text, stray.0));
    var s1 := s.(status := status);
    match status
    case HELLO => Done(s1.(mail := s.mail.(host := argument)), [Hello(argument)])
    case MAIL_FROM => Done(s1.(mail := s.mail.(mailFrom := MailAddress(Trim(argument)))), [Respond(250)])
    case MAIL_RCPT =>
      Done(s1.(mail := s.mail.(mailTo := s.mail.mailTo + [MailAddress(Trim(argument))])), [Respond(250)])
    case MAIL_DATA_START => Done(s1.(status := MAIL_DATA), [Respond(354)])
    case QUIT => Done(s1, [CloseSocket])
    case _ => Done(s1, [])
  }

  function Recipient(mail: MailData): Option<string> {
    if mail.mailTo == [] then None else Some(mail.mailTo[0])
  }

  /** A chunk of the body; everything collected so far is searched again. */
  function ReceiveBody(s: Session, data: string): Done {
    var body := s.mail.data + CStr(data);
    if FindSub(body, TERMINATOR) == NPOS then Done(s.(mail := s.mail.(data := body)), [])
    else
      Done(Session(GREETINGS, s.mail.(data := [], mailTo := [])), [Stored(Recipient(s.mail), body), Respond(250)])
  }

  function StepSession(s: Session, e: Event): Done {
    match e
    case Connect(_) => Done(s.(status := HELLO), [Respond(220)])
    case Disconnect(_) => Done(NO_SESSION, [])
    case Receive(_, data, stray) =>
      if s.status == MAIL_DATA then ReceiveBody(s, data) else ReceiveCommand(s, data, stray)
  }

  // ----- the server -----

  class SmtpServer {
    var sessionStatus: map<int, Status>
    var sessionData: map<int, MailData>

    ghost function View(fd: int): Session
      reads this
    {
      Session(if fd in sessionStatus then sessionStatus[fd] else GREETINGS,
        if fd in sessionData then sessionData[fd] else NO_DATA)
    }

    constructor ()
      ensures forall fd :: View(fd) == NO_SESSION
    {
      sessionStatus, sessionData := map[], map[];
    }

    method ProcessConnect(fd: int) returns (effects: seq<Effect>)
      modifies this
      ensures Done(View(fd), effects) == StepSession(old(View(fd)), Connect(fd))
      ensures forall other :: other != fd ==> View(other) == old(View(other))
    {
      if fd !in sessionStatus {
        sessionStatus := sessionStatus[fd := GREETINGS];
      }
      sessionStatus := sessionStatus[fd := HELLO];
      effects := [Respond(220)];
    }

    method ProcessDisconnect(fd: int)
      modifies this
      ensures View(fd) == NO_SESSION
      ensures forall other :: other != fd ==> View(other) == old(View(other))
    {
      if fd in sessionStatus {
        sessionStatus := sessionStatus - {fd};
      }
      if fd in sessionData {
        sessionData := sessionData - {fd};
      }
    }

    method ProcessReceive(fd: int, data: string, stray: (string, string)) returns (effects: seq<Effect>)
      modifies this
      ensures Done(View(fd), effects) == StepSession(old(View(fd)), Receive(fd, data, stray))
      ensures forall other :: other != fd ==> View(other) == old(View(other))
    {
      hide StatusAfter, Word, AfterWord, MailAddress, Trim, CStr, FindSub;
      var status := if fd in sessionStatus then sessionStatus[fd] else GREETINGS;
      var mail := if fd in sessionData then sessionData[fd] else NO_DATA;
      effects := [];
      var text := CStr(data);
      if status == MAIL_DATA {
        mail := mail.(data := mail.data + text);
        if FindSub(mail.data, TERMINATOR) != NPOS {
          status := GREETINGS;
          effects := [Stored(if |mail.mailTo| == 0 then None else Some(mail.mailTo[0]), mail.data), Respond(250)];
          mail := mail.(data := []);
          mail := mail.(mailTo := []);
        }
      } else {
        var argument := Word(AfterWord(text), stray.1);
        status := StatusAfter(status, Word(text, stray.0));
        match status {
          case HELLO =>
            mail := mail.(host := argument);
            effects := [Hello(argument)];
          case MAIL_FROM =>
            mail := mail.(mailFrom := MailAddress(Trim(argument)));
            effects := [Respond(250)];
          case MAIL_RCPT =>
            mail := mail.(mailTo := mail.mailTo + [MailAddress(Trim(argument))]);
            effects := [Respond(250)];
          case MAIL_DATA_START =>
            effects := [Respond(354)];
            status := MAIL_DATA;
          case QUIT => effects := [CloseSocket];
          case _ =>
        }
      }
      sessionStatus, sessionData := sessionStatus[fd := status], sessionData[fd := mail];
    }

    /** Any interleaving: what a descriptor's session is depends on that descriptor's own events alone. */
    method ProcessAll(events: seq<Event>)
      requires forall fd :: View(fd) == NO_SESSION
      modifies this
      ensures forall fd :: View(fd) == Run(events, fd)
    {
      hide StepSession;
      for i := 0 to |events|
        invariant forall fd :: View(fd) == Run(events[..i], fd)
      {
        assert events[..i + 1][..i] == events[..i];
        var effects;
        match events[i] {
          case Connect(fd) => effects := ProcessConnect(fd);
          case Disconnect(fd) =>
            DisconnectResets(View(fd), fd);
            ProcessDisconnect(fd);
          case Receive(fd, data, stray) => effects := ProcessReceive(fd, data, stray);
        }
      }
      assert events[..|events|] == events;
    }
  }

  lemma DisconnectResets(s: Session, fd: int)
    ensures StepSession(s, Disconnect(fd)).session == NO_SESSION
  {
  }

  // ----- whole runs, seen from one descriptor -----

  function Run(events: seq<Event>, fd: int): Session {
    if events == [] then NO_SESSION
    else
      var before, e := Run(events[..|events| - 1], fd), events[|events| - 1];
      if e.fd == fd then StepSession(before, e).session else before
  }

  /** The body is empty outside MAIL_DATA, and unterminated inside it. */
  ghost predicate Inv(s: Session) {
    if s.status == MAIL_DATA then !Terminated(s.mail.data) else s.mail.data == []
  }

  lemma CommandNeverLeadsIntoBody(status: Status, word: string)
    requires status != MAIL_DATA
    ensures StatusAfter(status, word) != MAIL_DATA
  {
    hide Lower, Trim;
  }

  lemma EmptyIsUnterminated()
    ensures !Terminated([])
  {
  }

  /** A receive leaves MAIL_DATA exactly when what has been collected is terminated, and then it stores all of it. */
  lemma LeavesBodyByCommit(s: Session, e: Event)
    requires s.status == MAIL_DATA && e.Receive?
    ensures var r, body := StepSession(s, e), s.mail.data + CStr(e.data);
      && (r.session.status != MAIL_DATA <==> Terminated(body))
      && (Terminated(body) ==>
            r == Done(Session(GREETINGS, s.mail.(data := [], mailTo := [])),
                      [Stored(Recipient(s.mail), body), Respond(250)]))
      && (!Terminated(body) ==> r == Done(s.(mail := s.mail.(data := body)), []))
  {
    hide FindSub, Occurs, CStr;
    var body := s.mail.data + CStr(e.data);
    assert FindSub(body, TERMINATOR) == NPOS <==> !Terminated(body);
  }

  lemma CommandKeepsInv(s: Session, data: string, stray: (string, string))
    requires s.status != MAIL_DATA && s.mail.data == []
    ensures Inv(ReceiveCommand(s, data, stray).session)
  {
    hide StatusAfter, Word, AfterWord, MailAddress, Trim, CStr, Occurs;
    CommandNeverLeadsIntoBody(s.status, Word(CStr(data), stray.0));
    EmptyIsUnterminated();
  }

  /** Every event keeps the invariant, except a connect that finds a body half received, which always breaks it. */
  lemma InvStep(s: Session, e: Event)
    requires Inv(s)
    ensures Inv(StepSession(s, e).session) <==> !(e.Connect? && s.mail.data != [])
  {
    hide Terminated, ReceiveBody, ReceiveCommand;
    EmptyIsUnterminated();
    if e.Receive? {
      if s.status == MAIL_DATA {
        LeavesBodyByCommit(s, e);
      } else {
        CommandKeepsInv(s, e.data, e.stray);
      }
    }
  }

  /** The invariant holds after every event of the run for this descriptor. */
  ghost predicate AlwaysInv(events: seq<Event>, fd: int) {
    Inv(Run(events, fd)) && (events != [] ==> AlwaysInv(events[..|events| - 1], fd))
  }

  /** No connect on the descriptor comes while its body is half received. */
  ghost predicate NoConnectMidBody(events: seq<Event>, fd: int) {
    events != [] ==>
      var before, e := events[..|events| - 1], events[|events| - 1];
      NoConnectMidBody(before, fd) && !(e == Connect(fd) && Run(before, fd).mail.data != [])
  }

  lemma {:induction false} InvariantOverRuns(events: seq<Event>, fd: int)
    ensures AlwaysInv(events, fd) <==> NoConnectMidBody(events, fd)
  {
    if events == [] {
      assert Inv(NO_SESSION);
    } else {
      var before, e := events[..|events| - 1], events[|events| - 1];
      InvariantOverRuns(before, fd);
      if AlwaysInv(before, fd) && e.fd == fd {
        assert Inv(Run(before, fd)) by {
          assert AlwaysInv(before, fd);
        }
        InvStep(Run(before, fd), e);
      }
      hide StepSession, Inv;
    }
  }

  // ----- chunked bodies -----

  /** The session after these chunks have arrived, from the moment the body is asked for. */
  function Collect(s: Session, fd: int, chunks: seq<string>): Session {
    if chunks == [] then s
    else StepSession(Collect(s, fd, chunks[..|chunks| - 1]), Receive(fd, chunks[|chunks| - 1], NO_STRAY)).session
  }

  function Bodies(chunks: seq<string>): (r: seq<string>)
    ensures |r| == |chunks|
    ensures forall i :: 0 <= i < |chunks| ==> r[i] == CStr(chunks[i])
  {
    seq(|chunks|, i requires 0 <= i < |chunks| => CStr(chunks[i]))
  }

  /** What has arrived with the first `k` chunks. */
  function Arrived(chunks: seq<string>, k: nat): string
    requires k <= |chunks|
  {
    Concat(Bodies(chunks[..k]))
  }

  lemma ArrivedNext(chunks: seq<string>, k: nat)
    requires k < |chunks|
    ensures Arrived(chunks, k + 1) == Arrived(chunks, k) + CStr(chunks[k])
  {
    hide CStr;
    assert Bodies(chunks[..k + 1]) == Bodies(chunks[..k]) + [CStr(chunks[k])];
    ConcatAppend(Bodies(chunks[..k]), [CStr(chunks[k])]);
    assert Concat([CStr(chunks[k])]) == CStr(chunks[k]) by {
      assert [CStr(chunks[k])][1..] == [];
    }
  }

  lemma {:induction false} ArrivedGrows(chunks: seq<string>, i: nat, j: nat)
    requires i <= j <= |chunks|
    ensures Arrived(chunks, i) <= Arrived(chunks, j)
  {
    hide Arrived, CStr;
    if i < j {
      ArrivedGrows(chunks, i, j - 1);
      ArrivedNext(chunks, j - 1);
    }
  }

  lemma OccursInLonger(s: string, t: string, i: int)
    requires s <= t && OccursAt(s, TERMINATOR, i)
    ensures OccursAt(t, TERMINATOR, i)
  {
    assert t[i..i + |TERMINATOR|] == s[i..i + |TERMINATOR|];
  }

  lemma StaysTerminated(s: string, t: string)
    requires s <= t && Terminated(s)
    ensures Terminated(t)
  {
    var i :| OccursAt(s, TERMINATOR, i);
    OccursInLonger(s, t, i);
  }

  lemma CollectNext(s: Session, fd: int, chunks: seq<string>, k: nat)
    requires k < |chunks|
    ensures Collect(s, fd, chunks[..k + 1]) ==
      StepSession(Collect(s, fd, chunks[..k]), Receive(fd, chunks[k], NO_STRAY)).session
  {
    hide StepSession;
    assert chunks[..k + 1][..k] == chunks[..k];
  }

  lemma NothingCollected(s: Session, fd: int, chunks: seq<string>)
    requires s.mail.data == []
    ensures Collect(s, fd, chunks[..0]) == s.(mail := s.mail.(data := Arrived(chunks, 0)))
  {
    assert s.(mail := s.mail.(data := [])) == s;
    assert Bodies(chunks[..0]) == [];
  }

  lemma CollectsOneMore(s: Session, fd: int, chunks: seq<string>, k: nat)
    requires s.status == MAIL_DATA && k < |chunks| && !Terminated(Arrived(chunks, k + 1))
    requires Collect(s, fd, chunks[..k]) == s.(mail := s.mail.(data := Arrived(chunks, k)))
    ensures Collect(s, fd, chunks[..k + 1]) == s.(mail := s.mail.(data := Arrived(chunks, k + 1)))
  {
    hide StepSession, Arrived, Terminated, CStr, Collect;
    CollectNext(s, fd, chunks, k);
    ArrivedNext(chunks, k);
    LeavesBodyByCommit(s.(mail := s.mail.(data := Arrived(chunks, k))), Receive(fd, chunks[k], NO_STRAY));
  }

  /** As long as the terminator has not arrived, the body so far is exactly the chunks so far. */
  lemma {:induction false} CollectsUntilTerminated(s: Session, fd: int, chunks: seq<string>, k: nat)
    requires s.status == MAIL_DATA && s.mail.data == []
    requires k <= |chunks| && !Terminated(Arrived(chunks, k))
    ensures Collect(s, fd, chunks[..k]) == s.(mail := s.mail.(data := Arrived(chunks, k)))
  {
    hide Collect, Arrived, Terminated;
    if k == 0 {
      NothingCollected(s, fd, chunks);
    } else {
      ArrivedGrows(chunks, k - 1, k);
      if Terminated(Arrived(chunks, k - 1)) {
        StaysTerminated(Arrived(chunks, k - 1), Arrived(chunks, k));
      }
      CollectsUntilTerminated(s, fd, chunks, k - 1);
      CollectsOneMore(s, fd, chunks, k - 1);
    }
  }

  /** The first chunk with which the terminator has arrived, if there is one. */
  ghost predicate FirstTerminated(chunks: seq<string>, k: nat) {
    && k < |chunks|
    && Terminated(Arrived(chunks, k + 1))
    && forall i :: 0 <= i <= k ==> !Terminated(Arrived(chunks, i))
  }

  /** The message is stored with the first chunk that completes a terminator, and is all that has arrived by then. */
  lemma CommitsAtFirstTerminator(s: Session, fd: int, chunks: seq<string>, k: nat)
    requires s.status == MAIL_DATA && s.mail.data == [] && FirstTerminated(chunks, k)
    ensures var last := Receive(fd, chunks[k], NO_STRAY);
      var before := Collect(s, fd, chunks[..k]);
      && before.status == MAIL_DATA
      && StepSession(before, last) ==
           Done(Session(GREETINGS, s.mail.(mailTo := [])),
                [Stored(Recipient(s.mail), Arrived(chunks, k + 1)), Respond(250)])
  {
    hide Arrived, Terminated, Collect, CStr, StepSession;
    CollectsUntilTerminated(s, fd, chunks, k);
    ArrivedNext(chunks, k);
    LeavesBodyByCommit(s.(mail := s.mail.(data := Arrived(chunks, k))), Receive(fd, chunks[k], NO_STRAY));
  }

  /** Some chunk completes the first terminator exactly when what arrives in all has one. */
  lemma TerminatorArrives(chunks: seq<string>)
    ensures (exists k :: FirstTerminated(chunks, k)) <==> Terminated(Arrived(chunks, |chunks|))
  {
    hide Arrived;
    if Terminated(Arrived(chunks, |chunks|)) {
      var k := FirstWithTerminator(chunks, |chunks|);
      assert FirstTerminated(chunks, k);
    } else {
      forall k: nat | FirstTerminated(chunks, k)
        ensures false
      {
        ArrivedGrows(chunks, k + 1, |chunks|);
        StaysTerminated(Arrived(chunks, k + 1), Arrived(chunks, |chunks|));
      }
    }
  }

  lemma NothingArrived(chunks: seq<string>)
    ensures !Terminated(Arrived(chunks, 0))
  {
    assert Bodies(chunks[..0]) == [];
    EmptyIsUnterminated();
  }

  lemma OccursInShorter(s: string, t: string, i: int)
    ensures s <= t && OccursAt(t, TERMINATOR, i) && i + |TERMINATOR| <= |s| ==> OccursAt(s, TERMINATOR, i)
  {
    if s <= t && 0 <= i && i + |TERMINATOR| <= |s| {
      assert t[i..i + |TERMINATOR|] == s[i..i + |TERMINATOR|];
    }
  }

  lemma {:induction false} FirstWithTerminator(chunks: seq<string>, n: nat) returns (k: nat)
    requires n <= |chunks| && Terminated(Arrived(chunks, n))
    ensures FirstTerminated(chunks, k) && k < n
  {
    NothingArrived(chunks);
    if exists i :: 0 <= i < n && Terminated(Arrived(chunks, i)) {
      var i :| 0 <= i < n && Terminated(Arrived(chunks, i));
      k := FirstWithTerminator(chunks, i);
    } else {
      k := n - 1;
    }
  }

  /** Where the first terminator of a terminated text ends. */
  function FirstEnd(s: string): int {
    FindSub(s, TERMINATOR) + |TERMINATOR|
  }

  lemma FirstEndOfPrefix(s: string, t: string)
    requires s <= t && Terminated(s)
    ensures Terminated(t) && 0 <= FirstEnd(t) == FirstEnd(s) <= |s|
  {
    var i, j := FindSub(s, TERMINATOR), FindSub(t, TERMINATOR);
    OccursInLonger(s, t, i);
    hide FindSub;
    assert j <= i;
    OccursInShorter(s, t, j);
  }

  // ----- a stream in any chunks -----

  /** What the client has sent with the first `k` chunks, NULs and all. */
  function Sent(chunks: seq<string>, k: nat): string
    requires k <= |chunks|
  {
    Concat(chunks[..k])
  }

  lemma SentNext(chunks: seq<string>, k: nat)
    requires k < |chunks|
    ensures Sent(chunks, k + 1) == Sent(chunks, k) + chunks[k]
  {
    assert chunks[..k + 1] == chunks[..k] + [chunks[k]];
    ConcatAppend(chunks[..k], [chunks[k]]);
    assert Concat([chunks[k]]) == chunks[k] by {
      assert [chunks[k]][1..] == [];
    }
  }

  lemma SentIsPrefix(chunks: seq<string>, k: nat)
    requires k <= |chunks|
    ensures Sent(chunks, k) <= Concat(chunks)
    ensures k == |chunks| ==> Sent(chunks, k) == Concat(chunks)
  {
    assert chunks == chunks[..k] + chunks[k..];
    ConcatAppend(chunks[..k], chunks[k..]);
    if k == |chunks| {
      assert chunks[..k] == chunks;
    }
  }

  /**
   Without a NUL among its first `n` characters, the stream is collected as sent while fewer than `n` are
   sent, and from then on what is collected starts with them.
   */
  ghost predicate Tracks(sent: string, arrived: string, start: string) {
    if |sent| < |start| then arrived == sent else start <= arrived
  }

  lemma TracksNext(sent: string, arrived: string, start: string, chunk: string)
    requires Tracks(sent, arrived, start)
    requires start <= sent + chunk || sent + chunk <= start
    requires NUL !in start
    ensures Tracks(sent + chunk, arrived + CStr(chunk), start)
  {
    var text := CStr(chunk);
    if |sent| < |start| {
      var m := |start| - |sent|;
      if |chunk| < m {
        assert forall i :: 0 <= i < |chunk| ==> chunk[i] == start[|sent| + i];
      } else {
        assert forall i :: 0 <= i < m ==> chunk[i] == start[|sent| + i];
        TextReaches(chunk, m);
        assert start == (sent + text)[..|start|];
      }
    }
  }

  lemma TextReaches(chunk: string, m: nat)
    requires m <= |chunk| && NUL !in chunk[..m]
    ensures m <= |CStr(chunk)|
  {
    assert forall i :: 0 <= i < m ==> chunk[i] == chunk[..m][i];
  }

  lemma TracksFromStart(chunks: seq<string>, start: string)
    ensures Tracks(Sent(chunks, 0), Arrived(chunks, 0), start)
  {
    assert chunks[..0] == [] && Bodies(chunks[..0]) == [];
  }

  lemma {:induction false} ArrivedTracks(chunks: seq<string>, start: string, k: nat)
    requires k <= |chunks| && start <= Concat(chunks) && NUL !in start
    ensures Tracks(Sent(chunks, k), Arrived(chunks, k), start)
  {
    hide Sent, Arrived, CStr, Tracks;
    if k == 0 {
      TracksFromStart(chunks, start);
    } else {
      ArrivedTracks(chunks, start, k - 1);
      SentNext(chunks, k - 1);
      ArrivedNext(chunks, k - 1);
      SentIsPrefix(chunks, k);
      TracksNext(Sent(chunks, k - 1), Arrived(chunks, k - 1), start, chunks[k - 1]);
    }
  }

  /** The stream up to and including its first terminator. */
  function Message(stream: string): (r: string)
    requires Terminated(stream)
    ensures r <= stream && |r| == FirstEnd(stream) && Terminated(r)
  {
    hide FindSub;
    var r := stream[..FirstEnd(stream)];
    assert OccursAt(r, TERMINATOR, FindSub(stream, TERMINATOR)) by {
      OccursInShorter(r, stream, FindSub(stream, TERMINATOR));
    }
    r
  }

  /** A text that starts as the stream does is terminated exactly when it holds the stream's message. */
  lemma TerminatedByMessage(s: string, stream: string)
    requires Terminated(stream)
    ensures s <= stream && Terminated(s) ==> Message(stream) <= s
    ensures Message(stream) <= s ==> Terminated(s)
  {
    if s <= stream && Terminated(s) {
      FirstEndOfPrefix(s, stream);
    }
    if Message(stream) <= s {
      StaysTerminated(Message(stream), s);
    }
  }

  /** Chunk `k` completes a terminator, and what is stored with it starts with the stream's message. */
  ghost predicate StoresMessage(chunks: seq<string>, stream: string, k: nat)
    requires Terminated(stream)
  {
    FirstTerminated(chunks, k) && Message(stream) <= Arrived(chunks, k + 1)
  }

  /**
   Any way of cutting a stream without a NUL before its first terminator's end: the chunk that completes a
   terminator is the one that completes the stream's first, and stores what the stream is up to there;
   what follows it in the same chunk is stored as well.
   */
  lemma SplitStoresMessage(chunks: seq<string>, stream: string, k: nat)
    requires Concat(chunks) == stream && Terminated(stream) && NUL !in Message(stream)
    requires FirstTerminated(chunks, k)
    ensures StoresMessage(chunks, stream, k)
    ensures |Sent(chunks, k)| < |Message(stream)| <= |Sent(chunks, k + 1)|
  {
    hide Sent, Arrived, Message, Terminated;
    var start := Message(stream);
    ArrivedTracks(chunks, start, k);
    ArrivedTracks(chunks, start, k + 1);
    SentIsPrefix(chunks, k + 1);
    TerminatedByMessage(Arrived(chunks, k + 1), stream);
    TerminatedByMessage(Arrived(chunks, k), stream);
  }

  /** So two ways of cutting it store messages that agree up to and including the first terminator. */
  lemma SplitsAgree(a: seq<string>, b: seq<string>, stream: string, j: nat, k: nat)
    requires Concat(a) == stream && Concat(b) == stream && Terminated(stream) && NUL !in Message(stream)
    requires FirstTerminated(a, j) && FirstTerminated(b, k)
    ensures var n := FirstEnd(stream);
      && n <= |Arrived(a, j + 1)| && n <= |Arrived(b, k + 1)|
      && Arrived(a, j + 1)[..n] == Arrived(b, k + 1)[..n] == stream[..n]
  {
    hide Arrived, Terminated;
    SplitStoresMessage(a, stream, j);
    SplitStoresMessage(b, stream, k);
  }

  /** Every way of cutting a terminated stream stores its message, exactly when no NUL comes before the message ends. */
  lemma EverySplitStoresMessage(stream: string)
    requires Terminated(stream)
    ensures (forall chunks :: Concat(chunks) == stream ==> exists k :: StoresMessage(chunks, stream, k)) <==>
              NUL !in Message(stream)
  {
    hide Message, Terminated, StoresMessage;
    if NUL !in Message(stream) {
      forall chunks | Concat(chunks) == stream
        ensures exists k :: StoresMessage(chunks, stream, k)
      {
        var k := SplitIsStored(chunks, stream);
      }
    } else {
      assert Concat([stream]) == stream by {
        assert [stream][1..] == [];
      }
      forall k
        ensures !StoresMessage([stream], stream, k)
      {
        WholeIsCut(stream, k);
      }
    }
  }

  lemma SplitIsStored(chunks: seq<string>, stream: string) returns (k: nat)
    requires Concat(chunks) == stream && Terminated(stream) && NUL !in Message(stream)
    ensures StoresMessage(chunks, stream, k)
  {
    hide Sent, Arrived, Message, Terminated, FirstTerminated;
    ArrivedTracks(chunks, Message(stream), |chunks|);
    SentIsPrefix(chunks, |chunks|);
    TerminatedByMessage(Arrived(chunks, |chunks|), stream);
    TerminatorArrives(chunks);
    k :| FirstTerminated(chunks, k);
    SplitStoresMessage(chunks, stream, k);
  }

  /** In one chunk, nothing behind the first NUL arrives. */
  lemma WholeIsCut(stream: string, k: nat)
    requires Terminated(stream) && NUL in Message(stream)
    ensures !StoresMessage([stream], stream, k)
  {
    hide CStr, Terminated, Message;
    if StoresMessage([stream], stream, k) {
      OneChunk(stream);
    }
  }

  lemma OneChunk(text: string)
    ensures Arrived([text], 1) == CStr(text)
  {
    hide CStr;
    ArrivedNext([text], 0);
    assert Bodies([text][..0]) == [];
  }

  lemma TwoChunks(first: string, second: string)
    ensures Arrived([first, second], 1) == CStr(first)
    ensures Arrived([first, second], 2) == CStr(first) + CStr(second)
  {
    hide CStr;
    var chunks := [first, second];
    ArrivedNext(chunks, 0);
    ArrivedNext(chunks, 1);
    assert Bodies(chunks[..0]) == [];
  }

  lemma ConcatTwo(a: string, b: string)
    ensures Concat([a, b]) == Concat([a + b])
  {
    assert [a, b][1..] == [b] && [b][1..] == [] && [a + b][1..] == [];
  }

  lemma TerminatorAfter(c: char)
    requires c != '\r'
    ensures !Terminated([c]) && Terminated([c] + TERMINATOR)
  {
    assert OccursAt([c] + TERMINATOR, TERMINATOR, 1);
  }

  /** A message behind a NUL: lost when both arrive together, stored when the NUL ends a chunk of its own. */
  lemma NulHidesTerminator()
    ensures var whole, cut := [['x', NUL] + TERMINATOR], [['x', NUL], TERMINATOR];
      && Concat(whole) == Concat(cut)
      && (forall k :: !FirstTerminated(whole, k))
      && FirstTerminated(cut, 1)
  {
    hide Arrived, CStr, Terminated, Concat;
    var head := ['x', NUL];
    assert head == ['x'] + [NUL] + [];
    CStrStopsAtNul(['x'], []);
    CStrStopsAtNul(['x'], TERMINATOR);
    assert CStr(head + TERMINATOR) == ['x'] by {
      assert head + TERMINATOR == ['x'] + [NUL] + TERMINATOR;
    }
    assert CStr(TERMINATOR) == TERMINATOR;
    ConcatTwo(head, TERMINATOR);
    OneChunk(head + TERMINATOR);
    TwoChunks(head, TERMINATOR);
    NothingArrived([head, TERMINATOR]);
    TerminatorAfter('x');
  }

  // ----- a whole message -----

  /** The commands, in small letters and in capitals. */
  predicate Says(word: string, status: Status) {
    match status
    case HELLO => EitherCase(word, "helo", "HELO")
    case MAIL_FROM => EitherCase(word, "mail", "MAIL")
    case MAIL_RCPT => EitherCase(word, "rcpt", "RCPT")
    case MAIL_DATA_START => EitherCase(word, "data", "DATA")
    case QUIT => EitherCase(word, "quit", "QUIT")
    case _ => false
  }

  lemma WordsDiffer(w: string)
    ensures w == "helo" ==> w != "mail" && w != "rcpt" && w != "data" && w != "quit"
    ensures w == "mail" ==> w != "rcpt" && w != "data" && w != "quit"
    ensures w == "rcpt" ==> w != "data" && w != "quit"
    ensures w == "data" ==> w != "quit"
  {
    assert "helo"[0] == 'h' && "mail"[0] == 'm' && "rcpt"[0] == 'r' && "data"[0] == 'd' && "quit"[0] == 'q';
  }

  lemma FoldsToCommands(word: string)
    ensures Lower(word) == "helo" <==> Says(word, HELLO)
    ensures Lower(word) == "mail" <==> Says(word, MAIL_FROM)
    ensures Lower(word) == "rcpt" <==> Says(word, MAIL_RCPT)
    ensures Lower(word) == "data" <==> Says(word, MAIL_DATA_START)
    ensures Lower(word) == "quit" <==> Says(word, QUIT)
  {
    FoldsTo(word, "helo", "HELO");
    FoldsTo(word, "mail", "MAIL");
    FoldsTo(word, "rcpt", "RCPT");
    FoldsTo(word, "data", "DATA");
    FoldsTo(word, "quit", "QUIT");
    hide Lower, EitherCase;
  }

  /** The table: a word, once trimmed, sets the status of the command that it says, and leaves it when it says none. */
  lemma CommandTable(status: Status, word: string)
    ensures forall c :: Says(Trim(word), c) ==> StatusAfter(status, word) == c
    ensures (forall c :: !Says(Trim(word), c)) ==> StatusAfter(status, word) == status
  {
    hide Lower, Trim;
    FoldsToCommands(Trim(word));
    WordsDiffer(Lower(Trim(word)));
    hide EitherCase;
  }

  /** A command has nothing in it that would end it early. */
  lemma VerbIsWord(verb: string, c: Status)
    requires Says(verb, c)
    ensures OnOneLine(verb) && ' ' !in verb && verb != []
    ensures !IsSpace(verb[0]) && !IsSpace(verb[|verb| - 1])
  {
    assert forall i :: 0 <= i < |verb| ==> 'a' <= verb[i] <= 'z' || 'A' <= verb[i] <= 'Z';
    hide Says;
  }

  /** A line that is a command, a blank and an argument without blanks comes apart into the two. */
  lemma CommandLine(verb: string, argument: string, c: Status, stray: (string, string))
    requires Says(verb, c) && OnOneLine(argument) && ' ' !in argument
    ensures var text := CStr(verb + [' '] + (argument + ['\r'] + ['\n'] + []));
      && Word(text, stray.0) == verb && Trim(verb) == verb
      && Word(AfterWord(text), stray.1) == argument + ['\r']
  {
    hide Says, Trim, CStr, TokenLength;
    VerbIsWord(verb, c);
    var rest := argument + ['\r'] + ['\n'] + [];
    assert rest[|argument| + 1] == '\n';
    TokenAt(verb, ' ', rest);
    TokenAt(argument + ['\r'], '\n', []);
    assert NUL !in verb + [' '] + rest;
    AlreadyTrimmed(verb);
  }

  /** A line that is a command alone; the '\r' stays with the word until it is trimmed. */
  lemma BareLine(verb: string, c: Status, stray: (string, string))
    requires Says(verb, c)
    ensures var text := CStr(CommandAlone(verb)); Trim(Word(text, stray.0)) == verb
  {
    hide Says, Trim, CStr, TokenLength;
    VerbIsWord(verb, c);
    TokenAt(verb + ['\r'], '\n', []);
    assert NUL !in verb + ['\r'] + ['\n'] + [];
    AlreadyTrimmed(verb);
    assert AllSpace(['\r']);
  }

  lemma BracketedArgument(prefix: string, address: string)
    requires prefix != [] && !IsSpace(prefix[0]) && '<' !in prefix
    ensures MailAddress(Trim(prefix + ['<'] + (address + ['>'] + []) + ['\r'])) == address
  {
    hide Trim, MailAddress;
    var to := prefix + ['<'] + (address + ['>'] + []);
    assert to[|to| - 1] == '>' && to[0] == prefix[0];
    AlreadyTrimmed(to);
    assert AllSpace(['\r']);
    MailAddressBetweenBrackets(prefix, address, []);
  }

  function AddressLine(verb: string, prefix: string, address: string): string {
    verb + [' '] + (prefix + ['<'] + (address + ['>'] + []) + ['\r'] + ['\n'] + [])
  }

  function RcptLine(verb: string, address: string): string {
    AddressLine(verb, ['T', 'O', ':'], address)
  }

  function MailLine(verb: string, address: string): string {
    AddressLine(verb, ['F', 'R', 'O', 'M', ':'], address)
  }

  function HeloLine(verb: string, name: string): string {
    verb + [' '] + (name + ['\r'] + ['\n'] + [])
  }

  function CommandAlone(verb: string): string {
    verb + ['\r'] + ['\n'] + []
  }

  function WithRecipient(s: Session, address: string): Session {
    Session(MAIL_RCPT, s.mail.(mailTo := s.mail.mailTo + [address]))
  }

  lemma AddressCommand(s: Session, verb: string, c: Status, prefix: string, address: string, stray: (string, string))
    requires Says(verb, c) && OnOneLine(address) && ' ' !in address
    requires OnOneLine(prefix) && ' ' !in prefix && prefix != [] && !IsSpace(prefix[0]) && '<' !in prefix
    ensures var text := CStr(AddressLine(verb, prefix, address));
      && StatusAfter(s.status, Word(text, stray.0)) == c
      && MailAddress(Trim(Word(AfterWord(text), stray.1))) == address
  {
    hide Says, Trim, CStr, Word, AfterWord, MailAddress, StatusAfter;
    var argument := prefix + ['<'] + (address + ['>'] + []);
    CommandLine(verb, argument, c, stray);
    CommandTable(s.status, verb);
    BracketedArgument(prefix, address);
  }

  /** RCPT adds exactly the address between the brackets to the recipients. */
  lemma RcptAddsRecipient(s: Session, verb: string, address: string, stray: (string, string))
    requires Says(verb, MAIL_RCPT) && OnOneLine(address) && ' ' !in address
    ensures ReceiveCommand(s, RcptLine(verb, address), stray) == Done(WithRecipient(s, address), [Respond(250)])
  {
    hide Says, Trim, CStr, Word, AfterWord, MailAddress, StatusAfter;
    AddressCommand(s, verb, MAIL_RCPT, ['T', 'O', ':'], address, stray);
  }

  /** MAIL sets exactly the sender. */
  lemma MailSetsSender(s: Session, verb: string, address: string, stray: (string, string))
    requires Says(verb, MAIL_FROM) && OnOneLine(address) && ' ' !in address
    ensures ReceiveCommand(s, MailLine(verb, address), stray) ==
      Done(Session(MAIL_FROM, s.mail.(mailFrom := address)), [Respond(250)])
  {
    hide Says, Trim, CStr, Word, AfterWord, MailAddress, StatusAfter;
    AddressCommand(s, verb, MAIL_FROM, ['F', 'R', 'O', 'M', ':'], address, stray);
  }

  /** HELO sets exactly the host and answers with it; the '\r' of the line stays with the name. */
  lemma HeloSetsHost(s: Session, verb: string, name: string, stray: (string, string))
    requires Says(verb, HELLO) && OnOneLine(name) && ' ' !in name
    ensures ReceiveCommand(s, HeloLine(verb, name), stray) ==
      Done(Session(HELLO, s.mail.(host := name + ['\r'])), [Hello(name + ['\r'])])
  {
    hide Says, Trim, CStr, Word, AfterWord, MailAddress, StatusAfter;
    CommandLine(verb, name, HELLO, stray);
    CommandTable(s.status, verb);
  }

  /** DATA, which has no argument, opens the body whatever came before. */
  lemma DataOpensBody(s: Session, verb: string, stray: (string, string))
    requires Says(verb, MAIL_DATA_START)
    ensures ReceiveCommand(s, CommandAlone(verb), stray) == Done(Session(MAIL_DATA, s.mail), [Respond(354)])
  {
    hide Says, Trim, CStr, Word, AfterWord, MailAddress, StatusAfter, CommandAlone;
    BareLine(verb, MAIL_DATA_START, stray);
    CommandTable(s.status, Word(CStr(CommandAlone(verb)), stray.0));
  }

  /** QUIT only closes the socket. */
  lemma QuitCloses(s: Session, verb: string, stray: (string, string))
    requires Says(verb, QUIT)
    ensures ReceiveCommand(s, CommandAlone(verb), stray) == Done(Session(QUIT, s.mail), [CloseSocket])
  {
    hide Says, Trim, CStr, Word, AfterWord, MailAddress, StatusAfter, CommandAlone;
    BareLine(verb, QUIT, stray);
    CommandTable(s.status, Word(CStr(CommandAlone(verb)), stray.0));
  }

  /**
   Any other word leaves the status, and what the last command did is done again with the new argument:
   before any command that is nothing.
   */
  lemma OtherWordsRepeat(s: Session, data: string, stray: (string, string))
    requires s.status != MAIL_DATA && forall c :: !Says(Trim(Word(CStr(data), stray.0)), c)
    ensures var r, argument := ReceiveCommand(s, data, stray), Word(AfterWord(CStr(data)), stray.1);
      && (s.status != MAIL_DATA_START ==> r.session.status == s.status)
      && (s.status == GREETINGS ==> r == Done(s, []))
      && (s.status == HELLO ==> r == Done(s.(mail := s.mail.(host := argument)), [Hello(argument)]))
      && (s.status == MAIL_FROM ==>
            r == Done(s.(mail := s.mail.(mailFrom := MailAddress(Trim(argument)))), [Respond(250)]))
      && (s.status == MAIL_RCPT ==>
            r.session == WithRecipient(s, MailAddress(Trim(argument))) && r.effects == [Respond(250)])
      && (s.status == QUIT ==> r == Done(s, [CloseSocket]))
  {
    hide Says, Trim, CStr, Word, AfterWord, MailAddress, StatusAfter;
    CommandTable(s.status, Word(CStr(data), stray.0));
    assert s.(status := s.status) == s;
  }

  /** A connect is greeted; a disconnect forgets the session. */
  lemma ConnectGreets(s: Session, fd: int)
    ensures StepSession(s, Connect(fd)).effects == [Respond(220)]
    ensures StepSession(s, Connect(fd)).session == Session(HELLO, s.mail)
    ensures StepSession(s, Disconnect(fd)) == Done(Session(GREETINGS, MailData("", "", [], "")), [])
  {
  }

  lemma RcptStep(s: Session, fd: int, verb: string, address: string, stray: (string, string))
    requires s.status != MAIL_DATA && Says(verb, MAIL_RCPT) && OnOneLine(address) && ' ' !in address
    ensures StepSession(s, Receive(fd, RcptLine(verb, address), stray)).session == WithRecipient(s, address)
  {
    hide Says, ReceiveCommand, RcptLine, CommandAlone;
    RcptAddsRecipient(s, verb, address, stray);
  }

  lemma DataStep(s: Session, fd: int, verb: string, stray: (string, string))
    requires s.status != MAIL_DATA && Says(verb, MAIL_DATA_START)
    ensures StepSession(s, Receive(fd, CommandAlone(verb), stray)).session == Session(MAIL_DATA, s.mail)
  {
    hide Says, ReceiveCommand, RcptLine, CommandAlone;
    DataOpensBody(s, verb, stray);
  }

  /**
   From any session outside a body: a RCPT line, a DATA line and a body in any chunks store that body for
   the first recipient, in the mailbox order the session had, and leave the session ready for the next.
   */
  lemma MessageIsStored(s: Session, fd: int, rcpt: string, address: string, data: string,
                        chunks: seq<string>, k: nat, stray: (string, string))
    requires s.status != MAIL_DATA && Inv(s)
    requires Says(rcpt, MAIL_RCPT) && Says(data, MAIL_DATA_START)
    requires OnOneLine(address) && ' ' !in address
    requires FirstTerminated(chunks, k)
    ensures
      var s1 := StepSession(s, Receive(fd, RcptLine(rcpt, address), stray)).session;
      var s2 := StepSession(s1, Receive(fd, CommandAlone(data), stray)).session;
      var s3 := Collect(s2, fd, chunks[..k]);
      StepSession(s3, Receive(fd, chunks[k], NO_STRAY)) ==
        Done(Session(GREETINGS, s.mail.(mailTo := [])),
          [Stored(Some((s.mail.mailTo + [address])[0]), Arrived(chunks, k + 1)), Respond(250)])
  {
    hide StepSession, FirstTerminated, Collect, Arrived, Says, RcptLine, CommandAlone, OnOneLine;
    var s1 := WithRecipient(s, address);
    RcptStep(s, fd, rcpt, address, stray);
    DataStep(s1, fd, data, stray);
    CommitsAtFirstTerminator(Session(MAIL_DATA, s1.mail), fd, chunks, k);
    assert s1.mail.(mailTo := []) == s.mail.(mailTo := []);
  }
}
