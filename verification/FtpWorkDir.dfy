/**
 The working directory of an FTP session over whole runs of the server: the stack of names that the CWD and
 CDUP lines of the session stand for.
 */
module FtpWorkDir {
  import opened Basics
  import opened Text
  import opened FtpCommands
  import opened FtpDirectory
  import opened FtpSession
  import opened FtpLogin

  predicate IsCdup(data: string) {
    Says(FirstWord(data), CDUP)
  }

  /** A CWD line with an argument to cut out. */
  predicate IsCwd(data: string) {
    Says(FirstWord(data), CWD) && ' ' in data
  }

  /** The move that an argument of CWD stands for, if it is a dot, two dots, a normalised path or a simple name. */
  ghost function ArgumentMove(env: Env, s: Session, dir: string): Option<Move> {
    if dir == ['.'] then Some(Here)
    else if dir == ['.', '.'] then Some(Back)
    else if dir != [] && dir[0] == '/' then
      if exists target: Stack :: target.Valid() && Render(target) == dir then
        var target: Stack :| target.Valid() && Render(target) == dir;
        Some(To(target))
      else None
    else if SimpleName(dir) then Some(Into(dir, env.isDir(s.homeDirectory + (s.actualDir + dir))))
    else None
  }

  /** The move a line makes in a session, if it makes any. */
  ghost function MoveOf(env: Env, s: Session, data: string): Option<Move> {
    if !s.loggedIn then None
    else if IsCdup(data) then Some(Up)
    else if IsCwd(data) then ArgumentMove(env, s, Argument(data))
    else None
  }

  /** If the line changes the directory, it is by a move on the stack. */
  ghost predicate Normal(env: Env, s: Session, data: string) {
    s.loggedIn && IsCwd(data) ==> ArgumentMove(env, s, Argument(data)).Some?
  }

  // ----- one line -----

  /** CWD does to the string what its move does. */
  lemma CwdMoves(env: Env, s: Session, dir: string)
    requires s.Valid() && ArgumentMove(env, s, dir).Some?
    ensures var m := ArgumentMove(env, s, dir).value;
      ValidMove(m) && ServeCwd(env, s, dir).session.actualDir == MoveString(s.actualDir, m)
  {
    hide Parent, WithSlash, Render;
    assert ['.', '.'] != ['.'] && ['.', '.'][0] == '.';
    assert dir != [] && dir[0] != '/' && SimpleName(dir) ==> dir != ['.'] && dir != ['.', '.'];
  }

  ghost function DirAfter(env: Env, s: Session, data: string): string
    requires s.Valid() && Normal(env, s, data)
  {
    match MoveOf(env, s, data)
    case None => s.actualDir
    case Some(m) => if ValidMove(m) then MoveString(s.actualDir, m) else s.actualDir
  }

  lemma LoggedInMoves(env: Env, s: Session, data: string)
    requires s.Valid() && env.Valid() && Normal(env, s, data) && IsCommand(data) && s.loggedIn
    ensures ServeLoggedIn(env, s, CommandOf(FirstWord(data)), data).session.actualDir == DirAfter(env, s, data)
    ensures MoveOf(env, s, data).Some? ==> ValidMove(MoveOf(env, s, data).value)
  {
    hide Argument, ServeType, ServePort, ServePasv, ServeCwd, ServeFile, ArgumentMove, Cwd, Render, FirstWord;
    hide Says, IsCommand, CommandOf;
    LineSays(data, CWD);
    LineSays(data, CDUP);
    SettingsKeepDir(env, s, data);
    if ' ' in data {
      FileKeepsDir(env, s, CommandOf(FirstWord(data)), Argument(data));
      if IsCwd(data) {
        CwdMoves(env, s, Argument(data));
      }
    }
  }

  lemma SettingsKeepDir(env: Env, s: Session, data: string)
    requires s.Valid() && env.Valid()
    ensures ServeType(s, data).session.actualDir == s.actualDir
    ensures ServePort(s, data).session.actualDir == s.actualDir
    ensures ServePasv(env, s).session.actualDir == s.actualDir
  {
    hide FirstWord, AfterWord, Lower, Trim;
  }

  lemma FileKeepsDir(env: Env, s: Session, c: Command, name: string)
    ensures ServeFile(env, s, c, name).session == s
  {
    hide PathTo;
  }

  lemma LoginKeepsDir(cfg: Config, env: Env, s: Session, data: string)
    ensures ServeUser(s, data).session.actualDir == s.actualDir
    ensures ServePass(cfg, env, s, data).session.actualDir == s.actualDir
  {
    hide FirstWord, AfterWord, Password, IsGuest;
  }

  /** What any line does to the working directory. */
  lemma ServeMoves(cfg: Config, env: Env, s: Session, data: string)
    requires s.Valid() && env.Valid() && Normal(env, s, data)
    ensures Serve(cfg, env, s, data).session.actualDir == DirAfter(env, s, data)
    ensures MoveOf(env, s, data).Some? ==> ValidMove(MoveOf(env, s, data).value)
  {
    hide FirstWord, Argument, ServeUser, ServePass, ServeLoggedIn, ArgumentMove, MoveString, ValidMove, CommandOf;
    hide Says, IsCommand;
    LineSays(data, CWD);
    LineSays(data, CDUP);
    LoginKeepsDir(cfg, env, s, data);
    if IsCommand(data) && s.loggedIn {
      LoggedInMoves(env, s, data);
    }
  }

  // ----- whole runs -----

  const ROOT := Stack([], true)

  /** The moves of the session that `fd` has before event `n`. */
  ghost function Moves(cfg: Config, events: seq<ServerEvent>, n: nat, fd: int): seq<Move>
    requires n <= |events| && ValidRun(events)
  {
    if n == 0 then []
    else
      var before, e := Moves(cfg, events, n - 1, fd), events[n - 1];
      if EndsAt(cfg, events, n - 1, fd) then []
      else if e.Receive? && e.fd == fd then
        match MoveOf(e.env, SessionOf(After(cfg, events, n - 1), fd), e.data)
        case None => before
        case Some(m) => before + [m]
      else before
  }

  /** Every line on `fd` that changes the directory does so by a move on the stack. */
  ghost predicate NormalRun(cfg: Config, events: seq<ServerEvent>, n: nat, fd: int)
    requires n <= |events| && ValidRun(events)
  {
    forall k :: 0 <= k < n && events[k].Receive? && events[k].fd == fd ==>
      Normal(events[k].env, SessionOf(After(cfg, events, k), fd), events[k].data)
  }

  lemma {:induction false} RunStringMore(s: string, moves: seq<Move>, m: Move)
    requires Absolute(s) && ValidMove(m) && forall i :: 0 <= i < |moves| ==> ValidMove(moves[i])
    ensures Absolute(RunString(s, moves))
    ensures forall i :: 0 <= i <= |moves| ==> ValidMove((moves + [m])[i])
    ensures RunString(s, moves + [m]) == MoveString(RunString(s, moves), m)
    decreases |moves|
  {
    hide MoveString, ValidMove, Absolute;
    var all := moves + [m];
    assert forall i :: 0 <= i < |moves| ==> all[i] == moves[i];
    if moves == [] {
      assert all == [m] && all[1..] == [];
    } else {
      StringStaysAbsolute(s, moves[0]);
      RunStringMore(MoveString(s, moves[0]), moves[1..], m);
      assert all[1..] == moves[1..] + [m];
    }
  }

  /** The working directory behind an event: the root, what a line of the session makes of it, or what it was. */
  lemma DirStep(cfg: Config, events: seq<ServerEvent>, n: nat, fd: int)
    requires n < |events| && ValidRun(events)
    ensures var s, s' := SessionOf(After(cfg, events, n), fd), SessionOf(After(cfg, events, n + 1), fd);
      if EndsAt(cfg, events, n, fd) then s'.actualDir == ['/']
      else if events[n].Receive? && events[n].fd == fd then
        s'.actualDir == Serve(cfg, events[n].env, s, events[n].data).session.actualDir
      else s'.actualDir == s.actualDir
  {
    var e := events[n];
    if e.Receive? {
      ServeLogin(cfg, e.env, SessionOf(After(cfg, events, n), e.fd), e.data);
    }
    hide Serve, IsQuit, LoginAfter;
  }

  /** The directory and the moves behind one event: both reset, both as they were, or both one move on. */
  ghost predicate OneMove(dir: string, moves: seq<Move>, dir': string, moves': seq<Move>)
    requires Absolute(dir)
  {
    || (dir' == ['/'] && moves' == [])
    || (dir' == dir && moves' == moves)
    || exists m :: ValidMove(m) && dir' == MoveString(dir, m) && moves' == moves + [m]
  }

  lemma StepMoves(cfg: Config, events: seq<ServerEvent>, n: nat, fd: int)
    requires n < |events| && ValidRun(events) && NormalRun(cfg, events, n + 1, fd)
    ensures OneMove(SessionOf(After(cfg, events, n), fd).actualDir, Moves(cfg, events, n, fd),
                    SessionOf(After(cfg, events, n + 1), fd).actualDir, Moves(cfg, events, n + 1, fd))
  {
    hide MoveString, ValidMove, MoveOf, Normal, EndsAt, Serve, After;
    var e, s := events[n], SessionOf(After(cfg, events, n), fd);
    DirStep(cfg, events, n, fd);
    if !EndsAt(cfg, events, n, fd) && e.Receive? && e.fd == fd {
      ServeMoves(cfg, e.env, s, e.data);
    }
  }

  /** The directory is what the moves make of the root. */
  ghost predicate IsRun(dir: string, moves: seq<Move>) {
    (forall i :: 0 <= i < |moves| ==> ValidMove(moves[i])) && dir == RunString(['/'], moves)
  }

  lemma NoMoves()
    ensures IsRun(['/'], [])
  {
  }

  lemma OneMoveRuns(dir: string, moves: seq<Move>, dir': string, moves': seq<Move>)
    requires Absolute(dir) && IsRun(dir, moves) && OneMove(dir, moves, dir', moves')
    ensures IsRun(dir', moves')
  {
    hide MoveString, ValidMove, RunString, Absolute;
    NoMoves();
    if m :| ValidMove(m) && dir' == MoveString(dir, m) && moves' == moves + [m] {
      assert Absolute(['/']) by {
        RootIsAbsolute();
      }
      RunStringMore(['/'], moves, m);
    }
  }

  lemma RootIsAbsolute()
    ensures Absolute(['/'])
  {
  }

  /**
   Over every run whose directory changes are moves on the stack, the working directory of a session is what
   its moves make of the root.
   */
  lemma {:induction false} DirIsRun(cfg: Config, events: seq<ServerEvent>, n: nat, fd: int)
    requires n <= |events| && ValidRun(events) && NormalRun(cfg, events, n, fd)
    ensures IsRun(SessionOf(After(cfg, events, n), fd).actualDir, Moves(cfg, events, n, fd))
  {
    hide OneMove, IsRun, Normal, StepSessions, EndsAt, MoveOf;
    if n == 0 {
      NoMoves();
    } else {
      DirIsRun(cfg, events, n - 1, fd);
      StepMoves(cfg, events, n - 1, fd);
      OneMoveRuns(SessionOf(After(cfg, events, n - 1), fd).actualDir, Moves(cfg, events, n - 1, fd),
        SessionOf(After(cfg, events, n), fd).actualDir, Moves(cfg, events, n, fd));
    }
  }

  /**
   So the working directory is the rendered stack; and the stack is what pushing, popping and replacing names
   gives after every move, exactly when no name is entered while the final slash is missing.
   */
  lemma WorkDirIsStack(cfg: Config, events: seq<ServerEvent>, n: nat, fd: int)
    requires n <= |events| && ValidRun(events) && NormalRun(cfg, events, n, fd)
    ensures var moves := Moves(cfg, events, n, fd);
      && (forall i :: 0 <= i < |moves| ==> ValidMove(moves[i]))
      && RunStack(ROOT, moves).Valid()
      && SessionOf(After(cfg, events, n), fd).actualDir == Render(RunStack(ROOT, moves))
      && (AlwaysIdeal(ROOT, [], moves) <==> NeverGlues(ROOT, moves))
  {
    hide After, Moves, NormalRun, ValidMove;
    DirIsRun(cfg, events, n, fd);
    var moves := Moves(cfg, events, n, fd);
    assert Render(ROOT) == ['/'];
    hide Render;
    RunRendered(ROOT, moves);
    RefinesStackOfNames(ROOT, moves);
  }
}
