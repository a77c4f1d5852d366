/**
 What the login machine guarantees over whole runs of connects, disconnects and commands on any number of
 descriptors, and that a printed PASV address survives a PORT command.
 */
module FtpLogin {
  import opened Text
  import opened FtpAddress
  import opened FtpCommands
  import opened FtpDirectory
  import opened FtpSession

  // ----- runs -----

  ghost predicate ValidRun(events: seq<ServerEvent>) {
    forall i :: 0 <= i < |events| ==> ValidEvent(events[i])
  }

  lemma StepKeepsValid(cfg: Config, m: Sessions, e: ServerEvent)
    requires ValidSessions(m) && ValidEvent(e)
    ensures ValidSessions(StepSessions(cfg, m, e))
  {
    hide Serve;
    if e.Receive? {
      ServeKeepsValid(cfg, e.env, SessionOf(m, e.fd), e.data);
    }
  }

  /** The sessions after the first `n` events. */
  ghost function After(cfg: Config, events: seq<ServerEvent>, n: nat): (m: Sessions)
    requires n <= |events| && ValidRun(events)
    ensures ValidSessions(m)
  {
    if n == 0 then map[]
    else
      var before := After(cfg, events, n - 1);
      StepKeepsValid(cfg, before, events[n - 1]);
      StepSessions(cfg, before, events[n - 1])
  }

  ghost function EffectsAt(cfg: Config, events: seq<ServerEvent>, n: nat): seq<Effect>
    requires n < |events| && ValidRun(events)
  {
    StepEffects(cfg, After(cfg, events, n), events[n])
  }

  // ----- login steps -----

  predicate IsUser(data: string) {
    Says(FirstWord(data), USER)
  }

  predicate IsPass(data: string) {
    Says(FirstWord(data), PASS)
  }

  predicate IsQuit(data: string) {
    Says(FirstWord(data), QUIT)
  }

  /** The line's command is the one it says, and a line that says one is dealt with. */
  lemma LineSays(data: string, c: Command)
    requires c != UNKNOWN
    ensures Says(FirstWord(data), c) <==> IsCommand(data) && CommandOf(FirstWord(data)) == c
  {
    hide CommandOf, FirstWord, Says;
    CommandTable(FirstWord(data), c);
    if Says(FirstWord(data), c) {
      CommandsStartWithLetters(FirstWord(data), c);
    }
  }

  function UserName(data: string): string {
    FirstWord(AfterWord(data))
  }

  /** In session `s` this line is taken as a new user name. */
  predicate TakesUser(s: Session, data: string) {
    IsUser(data) && !s.loginPrompted && UserName(data) != []
  }

  /** The password a line gives: what follows the first blank of the trimmed line, or all of a line without one. */
  ghost predicate Gives(data: string, password: string) {
    var line := Trim(data);
    || (' ' !in line && password == line)
    || exists verb :: ' ' !in verb && line == verb + [' '] + password
  }

  lemma GivesPassword(data: string, password: string)
    ensures Gives(data, password) <==> password == Password(data)
  {
    hide Trim;
    var line := Trim(data);
    if ' ' in line {
      var k := FindFirst(line, ' ');
      assert ' ' !in line[..k] && line == line[..k] + [' '] + line[k + 1..];
      forall verb | ' ' !in verb && line == verb + [' '] + password
        ensures password == Password(data)
      {
        FindFirstAt(verb, ' ', password);
      }
    }
  }

  /** A guest who may come in by the name alone, or a password that holds. */
  predicate Holds(cfg: Config, env: Env, user: string, password: string) {
    || (cfg.allowGuests && EitherCase(user, "anonymous", "ANONYMOUS"))
    || (password != [] && (cfg.useDbAuth ==> env.dbAccepts(user, password)))
  }

  lemma GuestByName(cfg: Config, user: string)
    ensures IsGuest(cfg, user) <==> cfg.allowGuests && EitherCase(user, "anonymous", "ANONYMOUS")
  {
    FoldsTo(user, "anonymous", "ANONYMOUS");
    hide Lower, EitherCase;
  }

  /** In session `s` this line carries a password that is checked against the session's own user name, and holds. */
  ghost predicate TakesPass(cfg: Config, env: Env, s: Session, data: string) {
    IsPass(data) && s.loginPrompted && exists password :: Gives(data, password) && Holds(cfg, env, s.username, password)
  }

  /** Event `n` is an accepted USER that names `user` on `fd`. */
  ghost predicate UserAt(cfg: Config, events: seq<ServerEvent>, n: nat, fd: int, user: string)
    requires n < |events| && ValidRun(events)
  {
    && events[n].Receive? && events[n].fd == fd
    && TakesUser(SessionOf(After(cfg, events, n), fd), events[n].data) && UserName(events[n].data) == user
  }

  /** Event `n` is a PASS on `fd` whose credentials were accepted for `user`. */
  ghost predicate PassAt(cfg: Config, events: seq<ServerEvent>, n: nat, fd: int, user: string)
    requires n < |events| && ValidRun(events)
  {
    && events[n].Receive? && events[n].fd == fd
    && SessionOf(After(cfg, events, n), fd).username == user
    && TakesPass(cfg, events[n].env, SessionOf(After(cfg, events, n), fd), events[n].data)
  }

  /** Event `n` ends the session of `fd`: a disconnect, or a QUIT. */
  ghost predicate EndsAt(cfg: Config, events: seq<ServerEvent>, n: nat, fd: int)
    requires n < |events| && ValidRun(events)
  {
    events[n].fd == fd && (events[n].Disconnect? || (events[n].Receive? && IsQuit(events[n].data)))
  }

  /** Event `n` is a PASS line on `fd`, taken or not. */
  ghost predicate PassLineAt(events: seq<ServerEvent>, n: nat, fd: int)
    requires n < |events|
  {
    events[n].Receive? && events[n].fd == fd && IsPass(events[n].data)
  }

  /** A user name accepted at `i` and still waiting for its password before event `n`. */
  ghost predicate Prompted(cfg: Config, events: seq<ServerEvent>, i: nat, n: nat, fd: int, user: string)
    requires n <= |events| && ValidRun(events)
  {
    && i < n && UserAt(cfg, events, i, fd, user)
    && (forall k :: i < k < n ==> !EndsAt(cfg, events, k, fd))
    && (forall k, u :: i < k < n ==> !UserAt(cfg, events, k, fd, u))
    && (forall k :: i < k < n ==> !PassLineAt(events, k, fd))
  }

  /**
   A login before event `n`: USER at `i`, no other USER and no PASS until the PASS at `j` that was checked
   against it, and the session not ended since.
   */
  ghost predicate LoggedIn(cfg: Config, events: seq<ServerEvent>, i: nat, j: nat, n: nat, fd: int, user: string)
    requires n <= |events| && ValidRun(events)
  {
    && j < n && Prompted(cfg, events, i, j, fd, user) && PassAt(cfg, events, j, fd, user)
    && (forall k :: j <= k < n ==> !EndsAt(cfg, events, k, fd))
  }

  // ----- one command -----

  predicate SameLogin(s: Session, t: Session) {
    s.username == t.username && s.loginPrompted == t.loginPrompted && s.loggedIn == t.loggedIn
  }

  /** What one line makes of prompt, name and login. */
  ghost predicate LoginAfter(cfg: Config, env: Env, s: Session, data: string, s': Session) {
    && (s'.loggedIn <==> s.loggedIn || TakesPass(cfg, env, s, data))
    && (s'.loginPrompted <==> TakesUser(s, data) || (s.loginPrompted && !IsPass(data)))
    && s'.username == (if TakesUser(s, data) then UserName(data) else s.username)
  }

  /**
   What one command can do to the three fields the login machine consists of, and what it takes to get past
   the guard. A USER while a prompt is open and a PASS without one do nothing at all.
   */
  lemma ServeLogin(cfg: Config, env: Env, s: Session, data: string)
    requires s.Valid() && env.Valid()
    ensures var r := Serve(cfg, env, s, data);
      && LoginAfter(cfg, env, s, data, r.session)
      && (r.fate == Erased <==> IsQuit(data))
      && (forall e :: e in r.effects && e.Guarded() ==> s.loggedIn)
      && (IsUser(data) && s.loginPrompted ==> r == Served(s, [], Stays))
      && (IsPass(data) && !s.loginPrompted ==> r == Served(s, [], Stays))
  {
    hide CommandOf, IsCommand, FirstWord, AfterWord, Password, IsGuest, ServeLoggedIn, ServeUser, ServePass;
    hide Gives, Holds, Says;
    LineSays(data, USER);
    LineSays(data, PASS);
    LineSays(data, QUIT);
    var c := CommandOf(FirstWord(data));
    if IsUser(data) {
      UserLogin(s, data);
    } else if IsPass(data) {
      PassLogin(cfg, env, s, data);
    } else {
      ServeLoggedInLogin(env, s, c, data);
    }
  }

  lemma UserLogin(s: Session, data: string)
    ensures var r := ServeUser(s, data);
      && r.fate == Stays && r.session.loggedIn == s.loggedIn
      && (r.session.loginPrompted <==> s.loginPrompted || UserName(data) != [])
      && r.session.username == (if !s.loginPrompted && UserName(data) != [] then UserName(data) else s.username)
      && (s.loginPrompted ==> r == Served(s, [], Stays))
      && forall e :: e in r.effects ==> e.Respond?
  {
    hide FirstWord, AfterWord;
  }

  lemma PassLogin(cfg: Config, env: Env, s: Session, data: string)
    ensures var r := ServePass(cfg, env, s, data);
      && r.fate == Stays && r.session.username == s.username && !r.session.loginPrompted
      && (r.session.loggedIn <==>
            || s.loggedIn
            || (s.loginPrompted && exists password :: Gives(data, password) && Holds(cfg, env, s.username, password)))
      && (!s.loginPrompted ==> r == Served(s, [], Stays))
      && forall e :: e in r.effects ==> e.Respond?
  {
    hide Password, IsGuest, Gives, EitherCase;
    GuestByName(cfg, s.username);
    GivesPassword(data, Password(data));
    forall password | Gives(data, password)
      ensures password == Password(data)
    {
      GivesPassword(data, password);
    }
  }

  lemma ServeLoggedInLogin(env: Env, s: Session, c: Command, data: string)
    requires s.Valid() && env.Valid()
    ensures var r := ServeLoggedIn(env, s, c, data);
      SameLogin(r.session, s) && r.fate != Erased
  {
    hide Cdup, Argument, ServeType, ServePort, ServePasv, ServeCwd, ServeFile, SameLogin;
    SettingsLogin(env, s, data);
    if ' ' in data {
      FileLogin(env, s, c, Argument(data));
    }
    assert SameLogin(s, s) && SameLogin(s.(actualDir := Cdup(s.actualDir)), s) by {
      SameLoginElsewhere(s, Cdup(s.actualDir));
    }
  }

  lemma SameLoginElsewhere(s: Session, dir: string)
    ensures SameLogin(s, s) && SameLogin(s.(actualDir := dir), s)
  {
  }

  /** TYPE, PORT and PASV. */
  lemma SettingsLogin(env: Env, s: Session, data: string)
    requires s.Valid() && env.Valid()
    ensures SameLogin(ServeType(s, data).session, s) && ServeType(s, data).fate == Stays
    ensures SameLogin(ServePort(s, data).session, s) && ServePort(s, data).fate != Erased
    ensures SameLogin(ServePasv(env, s).session, s) && ServePasv(env, s).fate == Stays
  {
    hide FirstWord, AfterWord, Slots, Commas, AddressOf, PrintAddress, Trim, Lower, FindFirst;
  }

  lemma FileLogin(env: Env, s: Session, c: Command, name: string)
    requires s.Valid()
    ensures ServeFile(env, s, c, name).session == s && ServeFile(env, s, c, name).fate == Stays
    ensures SameLogin(ServeCwd(env, s, name).session, s) && ServeCwd(env, s, name).fate == Stays
  {
    hide PathTo, Cwd;
  }

  /** The same as a step of the whole server, seen from one descriptor. */
  lemma StepLogin(cfg: Config, events: seq<ServerEvent>, n: nat, fd: int)
    requires n < |events| && ValidRun(events)
    ensures var s, s' := SessionOf(After(cfg, events, n), fd), SessionOf(After(cfg, events, n + 1), fd);
      && (EndsAt(cfg, events, n, fd) ==> s' == NEW_SESSION)
      && (events[n].fd != fd ==> s' == s)
      && (events[n].Connect? ==> SameLogin(s', s))
      && (events[n].Receive? && events[n].fd == fd && !EndsAt(cfg, events, n, fd) ==>
            LoginAfter(cfg, events[n].env, s, events[n].data, s'))
  {
    var e := events[n];
    if e.Receive? {
      ServeLogin(cfg, e.env, SessionOf(After(cfg, events, n), e.fd), e.data);
    }
    hide Serve, IsQuit, LoginAfter;
  }

  // ----- whole runs -----

  ghost predicate HasPrompt(cfg: Config, events: seq<ServerEvent>, n: nat, fd: int, user: string)
    requires n <= |events| && ValidRun(events)
  {
    exists i :: Prompted(cfg, events, i, n, fd, user)
  }

  ghost predicate HasLogin(cfg: Config, events: seq<ServerEvent>, n: nat, fd: int)
    requires n <= |events| && ValidRun(events)
  {
    exists i, j, user :: LoggedIn(cfg, events, i, j, n, fd, user)
  }

  ghost predicate History(cfg: Config, events: seq<ServerEvent>, n: nat, fd: int)
    requires n <= |events| && ValidRun(events)
  {
    var s := SessionOf(After(cfg, events, n), fd);
    && (s.loginPrompted ==> HasPrompt(cfg, events, n, fd, s.username))
    && (s.loggedIn ==> HasLogin(cfg, events, n, fd))
  }

  lemma PromptedLonger(cfg: Config, events: seq<ServerEvent>, i: nat, n: nat, fd: int, user: string)
    requires n < |events| && ValidRun(events) && Prompted(cfg, events, i, n, fd, user)
    requires !EndsAt(cfg, events, n, fd) && !PassLineAt(events, n, fd)
    requires forall u :: !UserAt(cfg, events, n, fd, u)
    ensures Prompted(cfg, events, i, n + 1, fd, user)
  {
    hide UserAt, EndsAt, PassLineAt;
  }

  lemma PromptedShorter(cfg: Config, events: seq<ServerEvent>, i: nat, k: nat, n: nat, fd: int, user: string)
    requires n <= |events| && ValidRun(events) && Prompted(cfg, events, i, n, fd, user) && i < k <= n
    ensures Prompted(cfg, events, i, k, fd, user)
  {
    hide UserAt, EndsAt, PassLineAt;
  }

  lemma LoggedInLonger(cfg: Config, events: seq<ServerEvent>, i: nat, j: nat, n: nat, fd: int, user: string)
    requires n < |events| && ValidRun(events) && LoggedIn(cfg, events, i, j, n, fd, user)
    requires !EndsAt(cfg, events, n, fd)
    ensures LoggedIn(cfg, events, i, j, n + 1, fd, user)
  {
    hide UserAt, EndsAt, PassAt, Prompted;
  }

  lemma LoggedInShorter(cfg: Config, events: seq<ServerEvent>, i: nat, j: nat, k: nat, n: nat, fd: int, user: string)
    requires n <= |events| && ValidRun(events) && LoggedIn(cfg, events, i, j, n, fd, user) && j < k <= n
    ensures LoggedIn(cfg, events, i, j, k, fd, user)
  {
    hide UserAt, EndsAt, PassAt, Prompted;
  }

  lemma HistoryStep(cfg: Config, events: seq<ServerEvent>, n: nat, fd: int)
    requires n < |events| && ValidRun(events) && History(cfg, events, n, fd)
    ensures History(cfg, events, n + 1, fd)
  {
    hide LoginAfter, UserAt, PassAt, Prompted, LoggedIn, HasPrompt, HasLogin, EndsAt, After;
    if EndsAt(cfg, events, n, fd) {
      StepLogin(cfg, events, n, fd);
    } else {
      HistoryPrompt(cfg, events, n, fd);
      HistoryLogin(cfg, events, n, fd);
    }
  }

  /** The prompt after event `n` is one opened at it, or the one from before it and neither taken up nor renewed. */
  lemma PromptStep(cfg: Config, events: seq<ServerEvent>, n: nat, fd: int)
    requires n < |events| && ValidRun(events) && !EndsAt(cfg, events, n, fd)
    ensures var s, s' := SessionOf(After(cfg, events, n), fd), SessionOf(After(cfg, events, n + 1), fd);
      s'.loginPrompted ==>
        UserAt(cfg, events, n, fd, s'.username) ||
        (s.loginPrompted && s.username == s'.username && !PassLineAt(events, n, fd) &&
         forall u :: !UserAt(cfg, events, n, fd, u))
  {
    StepLogin(cfg, events, n, fd);
    hide After, IsUser, IsPass, TakesPass, UserName, EndsAt, IsQuit;
  }

  lemma HistoryPrompt(cfg: Config, events: seq<ServerEvent>, n: nat, fd: int)
    requires n < |events| && ValidRun(events) && History(cfg, events, n, fd) && !EndsAt(cfg, events, n, fd)
    ensures var s := SessionOf(After(cfg, events, n + 1), fd);
      s.loginPrompted ==> HasPrompt(cfg, events, n + 1, fd, s.username)
  {
    var s, s' := SessionOf(After(cfg, events, n), fd), SessionOf(After(cfg, events, n + 1), fd);
    PromptStep(cfg, events, n, fd);
    hide After, EndsAt, UserAt, PassLineAt;
    if s'.loginPrompted {
      if UserAt(cfg, events, n, fd, s'.username) {
        assert Prompted(cfg, events, n, n + 1, fd, s'.username);
      } else {
        var i :| Prompted(cfg, events, i, n, fd, s.username);
        PromptedLonger(cfg, events, i, n, fd, s.username);
      }
    }
  }

  /** A session that is newly logged in is so by a PASS taken at this event. */
  lemma LoginStep(cfg: Config, events: seq<ServerEvent>, n: nat, fd: int)
    requires n < |events| && ValidRun(events) && !EndsAt(cfg, events, n, fd)
    ensures var s, s' := SessionOf(After(cfg, events, n), fd), SessionOf(After(cfg, events, n + 1), fd);
      && (s'.loggedIn && !s.loggedIn ==> s.loginPrompted && PassAt(cfg, events, n, fd, s.username))
      && (s.loggedIn ==> s'.loggedIn)
  {
    StepLogin(cfg, events, n, fd);
    hide After, TakesUser, IsPass, Holds, Gives, EndsAt;
  }

  lemma HistoryLogin(cfg: Config, events: seq<ServerEvent>, n: nat, fd: int)
    requires n < |events| && ValidRun(events) && History(cfg, events, n, fd) && !EndsAt(cfg, events, n, fd)
    ensures SessionOf(After(cfg, events, n + 1), fd).loggedIn ==> HasLogin(cfg, events, n + 1, fd)
  {
    hide After, EndsAt, PassAt, UserAt, Prompted;
    var s, s' := SessionOf(After(cfg, events, n), fd), SessionOf(After(cfg, events, n + 1), fd);
    LoginStep(cfg, events, n, fd);
    if s'.loggedIn {
      if s.loggedIn {
        var i, j, u :| LoggedIn(cfg, events, i, j, n, fd, u);
        LoggedInLonger(cfg, events, i, j, n, fd, u);
      } else {
        var i :| Prompted(cfg, events, i, n, fd, s.username);
        assert LoggedIn(cfg, events, i, n, n + 1, fd, s.username);
      }
    }
  }

  lemma {:induction false} HistoryHolds(cfg: Config, events: seq<ServerEvent>, n: nat, fd: int)
    requires n <= |events| && ValidRun(events)
    ensures History(cfg, events, n, fd)
  {
    hide StepSessions;
    if n > 0 {
      HistoryHolds(cfg, events, n - 1, fd);
      HistoryStep(cfg, events, n - 1, fd);
    }
  }

  lemma UserIsNeither(data: string)
    requires IsUser(data)
    ensures !IsQuit(data) && !IsPass(data)
  {
    hide FirstWord;
    assert "QUIT"[0] == 'Q' && "PASS"[0] == 'P' && "USER"[0] == 'U';
    assert "quit"[0] == 'q' && "pass"[0] == 'p' && "user"[0] == 'u';
  }

  /** An accepted USER opens the prompt under its name. */
  lemma UserOpens(cfg: Config, events: seq<ServerEvent>, n: nat, fd: int, user: string)
    requires n < |events| && ValidRun(events) && UserAt(cfg, events, n, fd, user)
    ensures var s := SessionOf(After(cfg, events, n + 1), fd); s.loginPrompted && s.username == user
    ensures !EndsAt(cfg, events, n, fd)
  {
    StepLogin(cfg, events, n, fd);
    UserIsNeither(events[n].data);
    hide After, IsUser, IsPass, IsQuit, UserName, TakesPass;
  }

  /** A prompt stays as it is as long as no PASS comes and the session is not ended. */
  lemma PromptStays(cfg: Config, events: seq<ServerEvent>, n: nat, fd: int)
    requires n < |events| && ValidRun(events) && !EndsAt(cfg, events, n, fd) && !PassLineAt(events, n, fd)
    requires SessionOf(After(cfg, events, n), fd).loginPrompted
    ensures var s, s' := SessionOf(After(cfg, events, n), fd), SessionOf(After(cfg, events, n + 1), fd);
      s'.loginPrompted && s'.username == s.username
  {
    StepLogin(cfg, events, n, fd);
    hide After, IsPass, TakesPass, IsUser, UserName, IsQuit;
  }

  lemma {:induction false} PromptedIsOpen(cfg: Config, events: seq<ServerEvent>, i: nat, n: nat, fd: int, user: string)
    requires n <= |events| && ValidRun(events) && Prompted(cfg, events, i, n, fd, user)
    ensures var s := SessionOf(After(cfg, events, n), fd); s.loginPrompted && s.username == user
  {
    hide After, UserAt, EndsAt, PassLineAt;
    if n == i + 1 {
      UserOpens(cfg, events, i, fd, user);
    } else {
      PromptedShorter(cfg, events, i, n - 1, n, fd, user);
      PromptedIsOpen(cfg, events, i, n - 1, fd, user);
      PromptStays(cfg, events, n - 1, fd);
    }
  }

  lemma PassLogsIn(cfg: Config, events: seq<ServerEvent>, n: nat, fd: int, user: string)
    requires n < |events| && ValidRun(events) && PassAt(cfg, events, n, fd, user) && !EndsAt(cfg, events, n, fd)
    ensures SessionOf(After(cfg, events, n + 1), fd).loggedIn
  {
    StepLogin(cfg, events, n, fd);
    hide After, TakesPass, IsPass, TakesUser, IsQuit;
  }

  lemma {:induction false} LoggedInHolds(cfg: Config, events: seq<ServerEvent>, i: nat, j: nat, n: nat, fd: int,
                                         user: string)
    requires n <= |events| && ValidRun(events) && LoggedIn(cfg, events, i, j, n, fd, user)
    ensures SessionOf(After(cfg, events, n), fd).loggedIn
  {
    hide After, UserAt, EndsAt, PassAt, Prompted;
    if n == j + 1 {
      PassLogsIn(cfg, events, j, fd, user);
    } else {
      LoggedInShorter(cfg, events, i, j, n - 1, n, fd, user);
      LoggedInHolds(cfg, events, i, j, n - 1, fd, user);
      LoginStep(cfg, events, n - 1, fd);
    }
  }

  /**
   Over every run, what a session holds is what its history says: an open prompt for a name is an accepted
   USER that no PASS has answered yet, and a login is a USER and a PASS checked against it, in a session not
   ended since.
   */
  lemma SessionIsHistory(cfg: Config, events: seq<ServerEvent>, n: nat, fd: int)
    requires n <= |events| && ValidRun(events)
    ensures var s := SessionOf(After(cfg, events, n), fd);
      && (forall user :: HasPrompt(cfg, events, n, fd, user) <==> s.loginPrompted && s.username == user)
      && (HasLogin(cfg, events, n, fd) <==> s.loggedIn)
  {
    hide After, Prompted, LoggedIn;
    HistoryHolds(cfg, events, n, fd);
    forall i: nat, user | Prompted(cfg, events, i, n, fd, user)
      ensures var s := SessionOf(After(cfg, events, n), fd); s.loginPrompted && s.username == user
    {
      PromptedIsOpen(cfg, events, i, n, fd, user);
    }
    if i: nat, j: nat, user :| LoggedIn(cfg, events, i, j, n, fd, user) {
      LoggedInHolds(cfg, events, i, j, n, fd, user);
    }
  }

  /**
   Over every run: an effect on directories, files or the data connection of a descriptor comes after an
   accepted USER and an accepted PASS that was checked against that same name, with no other USER or PASS in
   between, and in a session not ended since.
   */
  lemma EffectsNeedLogin(cfg: Config, events: seq<ServerEvent>, n: nat, effect: Effect)
    requires n < |events| && ValidRun(events)
    requires effect in EffectsAt(cfg, events, n) && effect.Guarded()
    ensures exists i, j, user :: LoggedIn(cfg, events, i, j, n, events[n].fd, user)
  {
    var fd := events[n].fd;
    SessionIsHistory(cfg, events, n, fd);
    var s := SessionOf(After(cfg, events, n), fd);
    assert events[n].Receive?;
    ServeLogin(cfg, events[n].env, s, events[n].data);
    hide Serve, After, LoggedIn, LoginAfter, HasPrompt;
  }

  /** No event on one descriptor touches the session of another. */
  lemma OthersUntouched(cfg: Config, m: Sessions, e: ServerEvent, fd: int)
    requires ValidSessions(m) && ValidEvent(e) && fd != e.fd
    ensures var m' := StepSessions(cfg, m, e);
      (fd in m' <==> fd in m) && (fd in m ==> m'[fd] == m[fd])
  {
    hide Serve;
  }

  // ----- a connect does not start a session -----

  /** The session that a connect at `k` finds, and keeps: a name it asked for before, or a login from before. */
  ghost predicate FindsOldLogin(cfg: Config, events: seq<ServerEvent>, k: nat, fd: int)
    requires k < |events| && ValidRun(events)
  {
    var s := SessionOf(After(cfg, events, k), fd);
    events[k] == Connect(fd) && (s.loginPrompted || s.loggedIn)
  }

  /** The prompt or the login in force before event `n` began before the connect at `k`. */
  ghost predicate OlderThan(cfg: Config, events: seq<ServerEvent>, k: nat, n: nat, fd: int)
    requires n <= |events| && ValidRun(events)
  {
    || (exists i: nat, user :: i < k && Prompted(cfg, events, i, n, fd, user))
    || (exists i: nat, j: nat, user :: i < k && LoggedIn(cfg, events, i, j, n, fd, user))
  }

  /** A connection whose session was logged in before it is still logged in behind it, on the old login. */
  lemma LoginOutlivesConnect(cfg: Config, events: seq<ServerEvent>, k: nat, fd: int)
    requires k < |events| && ValidRun(events) && events[k] == Connect(fd)
    ensures HasLogin(cfg, events, k + 1, fd) <==> SessionOf(After(cfg, events, k), fd).loggedIn
  {
    SessionIsHistory(cfg, events, k + 1, fd);
    StepLogin(cfg, events, k, fd);
    hide After, HasLogin, HasPrompt, LoginAfter;
  }

  /** What is older than a connect was there when it came. */
  lemma OlderWasThere(cfg: Config, events: seq<ServerEvent>, k: nat, n: nat, fd: int)
    requires k < n <= |events| && ValidRun(events) && events[k] == Connect(fd) && OlderThan(cfg, events, k, n, fd)
    ensures FindsOldLogin(cfg, events, k, fd)
  {
    hide After, Prompted, UserAt, EndsAt, TakesPass;
    if i: nat, user :| i < k && Prompted(cfg, events, i, n, fd, user) {
      PromptedShorter(cfg, events, i, k, n, fd, user);
      PromptedIsOpen(cfg, events, i, k, fd, user);
    } else {
      var i: nat, j: nat, user :| i < k && LoggedIn(cfg, events, i, j, n, fd, user);
      if k <= j {
        assert k < j;
        PromptedShorter(cfg, events, i, k, j, fd, user);
        PromptedIsOpen(cfg, events, i, k, fd, user);
      } else {
        LoggedInShorter(cfg, events, i, j, k, n, fd, user);
        LoggedInHolds(cfg, events, i, j, k, fd, user);
      }
    }
  }

  lemma FoundIsOlder(cfg: Config, events: seq<ServerEvent>, k: nat, fd: int)
    requires k < |events| && ValidRun(events) && FindsOldLogin(cfg, events, k, fd)
    ensures OlderThan(cfg, events, k, k + 1, fd)
  {
    hide After, Prompted, LoggedIn;
    var s := SessionOf(After(cfg, events, k), fd);
    HistoryHolds(cfg, events, k, fd);
    if s.loginPrompted {
      var i :| Prompted(cfg, events, i, k, fd, s.username);
      ConnectIsNoLine(cfg, events, k, fd);
      PromptedLonger(cfg, events, i, k, fd, s.username);
      PromptedStartsBefore(cfg, events, i, k, fd, s.username);
    } else {
      var i, j, user :| LoggedIn(cfg, events, i, j, k, fd, user);
      ConnectIsNoLine(cfg, events, k, fd);
      LoggedInLonger(cfg, events, i, j, k, fd, user);
      LoggedInStartsBefore(cfg, events, i, j, k, fd, user);
    }
  }

  lemma ConnectIsNoLine(cfg: Config, events: seq<ServerEvent>, k: nat, fd: int)
    requires k < |events| && ValidRun(events) && events[k].Connect?
    ensures !EndsAt(cfg, events, k, fd) && !PassLineAt(events, k, fd) && forall u :: !UserAt(cfg, events, k, fd, u)
  {
  }

  lemma PromptedStartsBefore(cfg: Config, events: seq<ServerEvent>, i: nat, n: nat, fd: int, user: string)
    requires n <= |events| && ValidRun(events) && Prompted(cfg, events, i, n, fd, user)
    ensures i < n
  {
  }

  lemma LoggedInStartsBefore(cfg: Config, events: seq<ServerEvent>, i: nat, j: nat, n: nat, fd: int, user: string)
    requires n <= |events| && ValidRun(events) && LoggedIn(cfg, events, i, j, n, fd, user)
    ensures i < j < n
  {
  }

  /**
   Over every run: no prompt and no login on a descriptor is ever older than its connection, exactly when
   every connect on it finds a session that is neither prompted nor logged in.
   */
  lemma LoginsBelongToConnections(cfg: Config, events: seq<ServerEvent>, fd: int)
    requires ValidRun(events)
    ensures
      (forall k, n :: 0 <= k < n <= |events| && events[k] == Connect(fd) ==> !OlderThan(cfg, events, k, n, fd)) <==>
      (forall k :: 0 <= k < |events| ==> !FindsOldLogin(cfg, events, k, fd))
  {
    hide OlderThan, FindsOldLogin;
    forall k, n | 0 <= k < n <= |events| && events[k] == Connect(fd) && OlderThan(cfg, events, k, n, fd)
      ensures FindsOldLogin(cfg, events, k, fd)
    {
      OlderWasThere(cfg, events, k, n, fd);
    }
    forall k | 0 <= k < |events| && FindsOldLogin(cfg, events, k, fd)
      ensures events[k] == Connect(fd) && OlderThan(cfg, events, k, k + 1, fd)
    {
      FoundIsConnect(cfg, events, k, fd);
      FoundIsOlder(cfg, events, k, fd);
    }
  }

  lemma FoundIsConnect(cfg: Config, events: seq<ServerEvent>, k: nat, fd: int)
    requires k < |events| && ValidRun(events) && FindsOldLogin(cfg, events, k, fd)
    ensures events[k] == Connect(fd)
  {
  }

  // ----- an old login at work -----

  predicate IsList(data: string) {
    Says(FirstWord(data), LIST)
  }

  lemma {:induction false} SameStart(cfg: Config, events: seq<ServerEvent>, more: seq<ServerEvent>, n: nat)
    requires n <= |events| && ValidRun(events) && ValidRun(events + more)
    ensures After(cfg, events + more, n) == After(cfg, events, n)
  {
    hide StepSessions;
    if n > 0 {
      SameStart(cfg, events, more, n - 1);
      assert (events + more)[n - 1] == events[n - 1];
    }
  }

  lemma AppendedStep(cfg: Config, events: seq<ServerEvent>, e: ServerEvent)
    requires ValidRun(events) && ValidEvent(e)
    ensures ValidRun(events + [e])
    ensures After(cfg, events + [e], |events| + 1) == StepSessions(cfg, After(cfg, events, |events|), e)
    ensures EffectsAt(cfg, events + [e], |events|) == StepEffects(cfg, After(cfg, events, |events|), e)
  {
    hide StepSessions, StepEffects;
    SameStart(cfg, events, [e], |events|);
  }

  lemma ListServes(cfg: Config, env: Env, s: Session, data: string)
    requires s.Valid() && env.Valid() && s.loggedIn && IsList(data)
    ensures CheckDir(s.homeDirectory + s.actualDir) in Serve(cfg, env, s, data).effects
  {
    hide CommandOf, FirstWord, IsCommand, Says;
    LineSays(data, LIST);
  }

  /**
   After any run that leaves the session of a descriptor logged in, the next connection on it lists
   directories without a login of its own: in the directory the old session was in, below the root.
   */
  lemma OldLoginServes(cfg: Config, events: seq<ServerEvent>, fd: int, data: string, env: Env)
    requires ValidRun(events) && env.Valid() && IsList(data)
    requires SessionOf(After(cfg, events, |events|), fd).loggedIn
    ensures var run := events + [Connect(fd)] + [Receive(fd, data, env)];
      && ValidRun(run)
      && CheckDir(cfg.rootDirectory + SessionOf(After(cfg, events, |events|), fd).actualDir) in
           EffectsAt(cfg, run, |events| + 1)
  {
    hide Serve, IsList, After;
    AppendedStep(cfg, events, Connect(fd));
    var m := After(cfg, events + [Connect(fd)], |events| + 1);
    AppendedStep(cfg, events + [Connect(fd)], Receive(fd, data, env));
    ListServes(cfg, env, SessionOf(m, fd), data);
  }

  lemma {:induction false} WordEndAt(word: string, rest: string)
    requires forall i :: 0 <= i < |word| ==> !IsStreamSpace(word[i])
    requires rest != [] ==> IsStreamSpace(rest[0])
    ensures WordEnd(word + rest) == |word|
  {
    if word == [] {
      assert word + rest == rest;
    } else {
      assert (word + rest)[1..] == word[1..] + rest;
      WordEndAt(word[1..], rest);
    }
  }

  /** A word, with or without a blank in front of it, is what extraction takes. */
  lemma FirstWordAt(word: string, rest: string)
    requires word != [] && forall i :: 0 <= i < |word| ==> !IsStreamSpace(word[i])
    requires rest != [] ==> IsStreamSpace(rest[0])
    ensures FirstWord(word + rest) == word && AfterWord(word + rest) == rest
    ensures FirstWord([' '] + word + rest) == word
  {
    WordEndAt(word, rest);
    assert ([' '] + word + rest)[1..] == word + rest;
    assert SkipSpace(word + rest) == word + rest;
  }

  const CRLF: string := ['\r', '\n']

  function UserLine(user: string): string {
    "user" + ([' '] + user + CRLF)
  }

  const PASS_LINE: string := "pass" + ([' '] + "secret" + CRLF)

  const LIST_LINE: string := "list" + CRLF

  lemma EitherCaseItself(small: string, capital: string)
    requires |small| == |capital|
    ensures EitherCase(small, small, capital)
  {
  }

  lemma LinesAsTyped(user: string)
    requires user != [] && forall i :: 0 <= i < |user| ==> !IsStreamSpace(user[i])
    ensures IsUser(UserLine(user)) && UserName(UserLine(user)) == user
    ensures IsPass(PASS_LINE) && Password(PASS_LINE) != []
    ensures IsList(LIST_LINE)
  {
    hide FirstWord, AfterWord, Trim, EitherCase;
    EitherCaseItself("user", "USER");
    EitherCaseItself("pass", "PASS");
    EitherCaseItself("list", "LIST");
    FirstWordAt("user", [' '] + user + CRLF);
    FirstWordAt(user, CRLF);
    FirstWordAt("pass", [' '] + "secret" + CRLF);
    FirstWordAt("list", CRLF);
    assert "user"[0] == 'u' && "pass"[0] == 'p' && "list"[0] == 'l';
    assert !AllSpace(PASS_LINE) by {
      assert PASS_LINE[0] == 'p';
    }
    PasswordNeverEmpty(PASS_LINE);
  }

  /** The database, if there is one, knows the user with the password of `PASS_LINE`. */
  predicate AcceptsLogin(cfg: Config, env: Env, user: string) {
    cfg.useDbAuth ==> env.dbAccepts(user, Password(PASS_LINE))
  }

  lemma LogsIn(cfg: Config, env: Env, s: Session, user: string)
    requires s.Valid() && env.Valid() && AcceptsLogin(cfg, env, user) && !s.loginPrompted
    requires user != [] && forall i :: 0 <= i < |user| ==> !IsStreamSpace(user[i])
    ensures var s1 := Serve(cfg, env, s, UserLine(user));
      && s1.fate == Stays && s1.session.Valid() && s1.session.actualDir == s.actualDir
      && var s2 := Serve(cfg, env, s1.session, PASS_LINE);
      && s2.fate == Stays && s2.session.loggedIn && s2.session.actualDir == s.actualDir
  {
    hide IsCommand, CommandOf, FirstWord, AfterWord, Password, IsGuest, Says;
    LinesAsTyped(user);
    LineSays(UserLine(user), USER);
    LineSays(PASS_LINE, PASS);
  }

  function LoginRun(fd: int, user: string, env: Env): seq<ServerEvent> {
    [] + [Connect(fd)] + [Receive(fd, UserLine(user), env)] + [Receive(fd, PASS_LINE, env)]
  }

  lemma AfterLoginRun(cfg: Config, fd: int, user: string, env: Env)
    requires env.Valid() && AcceptsLogin(cfg, env, user)
    requires user != [] && forall i :: 0 <= i < |user| ==> !IsStreamSpace(user[i])
    ensures var run := LoginRun(fd, user, env);
      && ValidRun(run) && |run| == 3
      && SessionOf(After(cfg, run, 3), fd).loggedIn && SessionOf(After(cfg, run, 3), fd).actualDir == ['/']
  {
    hide Serve, PASS_LINE, UserLine;
    var e1, e2, e3 := Connect(fd), Receive(fd, UserLine(user), env), Receive(fd, PASS_LINE, env);
    assert After(cfg, [], 0) == map[];
    hide After;
    AppendedStep(cfg, [], e1);
    AppendedStep(cfg, [] + [e1], e2);
    AppendedStep(cfg, [] + [e1] + [e2], e3);
    LogsIn(cfg, env, SessionOf(After(cfg, [] + [e1], 1), fd), user);
  }

  /**
   Such a run, with the database or without: a user logs in, another client gets the descriptor and lists the
   directory.
   */
  lemma OldLoginWitness(cfg: Config, fd: int, user: string, env: Env)
    requires env.Valid() && AcceptsLogin(cfg, env, user)
    requires user != [] && forall i :: 0 <= i < |user| ==> !IsStreamSpace(user[i])
    ensures var run := LoginRun(fd, user, env) + [Connect(fd)] + [Receive(fd, LIST_LINE, env)];
      ValidRun(run) && |run| == 5 && CheckDir(cfg.rootDirectory + ['/']) in EffectsAt(cfg, run, 4)
  {
    hide IsList, After, LIST_LINE, LoginRun, EffectsAt;
    AfterLoginRun(cfg, fd, user, env);
    LinesAsTyped(user);
    OldLoginServes(cfg, LoginRun(fd, user, env), fd, LIST_LINE, env);
  }

  // ----- PORT after PASV -----

  /** A PORT line that carries what PASV printed sets the session's address to it and leaves passive mode. */
  lemma PortRestoresPasv(s: Session, address: Address)
    requires address.Valid()
    ensures var line := ['P', 'O', 'R', 'T'] + [' '] + PrintAddress(address) + ['\r', '\n'];
      ServePort(s, line) ==
        Served(s.(address := address, isPassive := false), [SetAddress(address), Respond(200)], Stays)
  {
    hide Trim, Slots, AddressOf, Commas, PrintAddress, FindFirst;
    var printed := PrintAddress(address);
    PortUndoesPasv(address);
    PrintedEnds(address);
    PortLineTrimmed(printed);
  }

  function PortLine(address: Address): string
    requires address.Valid()
  {
    ['P', 'O', 'R', 'T'] + [' '] + PrintAddress(address) + ['\r', '\n']
  }

  lemma PortLineIsPort(address: Address)
    requires address.Valid()
    ensures IsCommand(PortLine(address)) && CommandOf(FirstWord(PortLine(address))) == PORT
  {
    hide CommandOf, FirstWord, PrintAddress, IsCommand;
    var verb, rest := ['P', 'O', 'R', 'T'], [' '] + PrintAddress(address) + ['\r', '\n'];
    assert PortLine(address) == verb + rest;
    FirstWordAt(verb, rest);
    LineSays(PortLine(address), PORT);
    assert EitherCase(verb, "port", "PORT");
  }

  lemma PortServes(cfg: Config, env: Env, s: Session, address: Address)
    requires s.Valid() && env.Valid() && s.loggedIn && address.Valid()
    ensures Serve(cfg, env, s, PortLine(address)) ==
      Served(s.(address := address, isPassive := false), [SetAddress(address), Respond(200)], Stays)
  {
    hide CommandOf, FirstWord, IsCommand, ServePort, PrintAddress;
    PortLineIsPort(address);
    PortRestoresPasv(s, address);
  }

  /** In any run: a logged in session takes the address of such a line, and nothing else of the server changes. */
  lemma PortOverRuns(cfg: Config, events: seq<ServerEvent>, fd: int, address: Address, env: Env)
    requires ValidRun(events) && env.Valid() && address.Valid()
    requires SessionOf(After(cfg, events, |events|), fd).loggedIn
    ensures var run := events + [Receive(fd, PortLine(address), env)];
      var m := After(cfg, events, |events|);
      && ValidRun(run)
      && After(cfg, run, |run|) == m[fd := SessionOf(m, fd).(address := address, isPassive := false)]
      && EffectsAt(cfg, run, |events|) == [SetAddress(address), Respond(200)]
  {
    hide Serve, After, PortLine;
    AppendedStep(cfg, events, Receive(fd, PortLine(address), env));
    PortServes(cfg, env, SessionOf(After(cfg, events, |events|), fd), address);
  }

  lemma PortLineTrimmed(printed: string)
    requires printed != [] && !IsSpace(printed[|printed| - 1])
    ensures var strdata := Trim(['P', 'O', 'R', 'T'] + [' '] + printed + ['\r', '\n']);
      ' ' in strdata && Substr(strdata, FindFirst(strdata, ' '), NPOS) == [' '] + printed
  {
    hide Trim, FindFirst;
    var verb := ['P', 'O', 'R', 'T'];
    var strdata := verb + [' '] + printed;
    assert strdata[|strdata| - 1] == printed[|printed| - 1];
    assert AllSpace(['\r', '\n']);
    AlreadyTrimmed(strdata);
    FindFirstAt(verb, ' ', printed);
    hide IsSpace;
    assert strdata[4] == ' ';
    assert strdata[4..] == [' '] + printed;
  }

  lemma PrintedEnds(address: Address)
    requires address.Valid()
    ensures PrintAddress(address) != [] && IsDigit(PrintAddress(address)[|PrintAddress(address)| - 1])
  {
    hide Decimal;
    JoinEnds(Printed(Numbers(address)));
  }

  lemma {:induction false} JoinEnds(pieces: seq<string>)
    requires pieces != [] && forall i :: 0 <= i < |pieces| ==> pieces[i] != []
    ensures Join(pieces) != []
    ensures var last := pieces[|pieces| - 1]; Join(pieces)[|Join(pieces)| - 1] == last[|last| - 1]
  {
    if |pieces| > 1 {
      JoinEnds(pieces[1..]);
    }
  }
}
