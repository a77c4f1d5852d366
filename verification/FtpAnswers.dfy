/**
 What an FTP session makes of a line as it is typed: for every command, the new session, what is asked of the
 file system and the data connection, and the response.
 */
module FtpAnswers {
  import opened Text
  import opened FtpAddress
  import opened FtpCommands
  import opened FtpDirectory
  import opened FtpSession
  import opened FtpLogin

  // ----- lines -----

  /** A command with an argument. */
  function Line(verb: string, argument: string): string {
    verb + ([' '] + argument + CRLF)
  }

  lemma VerbOfLetters(verb: string, c: Command)
    requires Says(verb, c)
    ensures c != UNKNOWN && verb != [] && forall i :: 0 <= i < |verb| ==> IsLetter(verb[i])
  {
  }

  lemma LettersAreNoSpace(verb: string)
    requires verb != [] && forall i :: 0 <= i < |verb| ==> IsLetter(verb[i])
    ensures ' ' !in verb && !IsSpace(verb[0]) && !IsSpace(verb[|verb| - 1])
    ensures forall i :: 0 <= i < |verb| ==> !IsStreamSpace(verb[i])
  {
  }

  /** The line is the command's, and its argument is cut out of it as typed. */
  lemma LineParts(verb: string, c: Command, argument: string)
    requires Says(verb, c) && Trimmed(argument)
    ensures var data := Line(verb, argument);
      && IsCommand(data) && CommandOf(FirstWord(data)) == c
      && AfterWord(data) == [' '] + argument + CRLF
      && ' ' in data && Argument(data) == argument
  {
    hide Says, FirstWord, AfterWord, CommandOf, Trim, FindFirst;
    VerbOfLetters(verb, c);
    LettersAreNoSpace(verb);
    var data, rest := Line(verb, argument), argument + CRLF;
    assert [' '] + argument + CRLF == [' '] + rest;
    FirstWordAt(verb, [' '] + argument + CRLF);
    LineSays(data, c);
    assert data == verb + [' '] + rest;
    FindFirstAt(verb, ' ', rest);
    assert data[|verb|] == ' ' && data[|verb|..] == [' '] + argument + CRLF;
    TrimUnique([' '], argument, CRLF);
  }

  // ----- login -----

  /**
   A connect is greeted and sets the home directory. Where no session is left from before, nobody is logged in,
   the directory is the root, and transfers are active, from port 20; their type, which the source does not
   set, is taken for binary.
   */
  lemma ConnectAnswers(cfg: Config, m: Sessions, fd: int)
    requires ValidSessions(m)
    ensures StepEffects(cfg, m, Connect(fd)) == [Respond(220)]
    ensures fd in m ==> StepSessions(cfg, m, Connect(fd)) == m[fd := m[fd].(homeDirectory := cfg.rootDirectory)]
    ensures fd !in m ==> StepSessions(cfg, m, Connect(fd)) == m[fd := Session(
      "", "", "/", cfg.rootDirectory, TRANSFER_BINARY, Address([0, 0, 0, 0], 20), false, false, false)]
  {
    assert "/" == ['/'];
  }

  /**
   PASS, to a session that was asked for a password: the word behind the blank is checked against the name
   given before, and without one the line itself is. A guest comes in by his name alone.
   */
  lemma PassAnswers(cfg: Config, env: Env, s: Session, verb: string, pw: string)
    requires s.Valid() && env.Valid() && s.loginPrompted && Says(verb, PASS) && Trimmed(pw)
    ensures var r := Serve(cfg, env, s, Line(verb, pw));
      var given := if pw == [] then verb else pw;
      var guest := cfg.allowGuests && EitherCase(s.username, "anonymous", "ANONYMOUS");
      var known := !cfg.useDbAuth || env.dbAccepts(s.username, given);
      && r.fate == Stays && r.effects == [Respond(if guest || known then 230 else 530)]
      && r.session ==
           if guest then s.(loginPrompted := false, loggedIn := true)
           else if !known then s.(loginPrompted := false, password := given)
           else
             s.(loginPrompted := false, loggedIn := true, password := given,
                homeDirectory := if cfg.useDbAuth then env.dbHome else s.homeDirectory)
  {
    hide Says, FirstWord, IsCommand, CommandOf, Password, IsGuest, Line, EitherCase;
    LineParts(verb, PASS, pw);
    PasswordTyped(verb, pw);
    GuestByName(cfg, s.username);
  }

  lemma PasswordTyped(verb: string, pw: string)
    requires Says(verb, PASS) && Trimmed(pw)
    ensures Password(Line(verb, pw)) == (if pw == [] then verb else pw) != []
  {
    VerbOfLetters(verb, PASS);
    LettersAreNoSpace(verb);
    hide Says, Trim, FindFirst;
    var line := Line(verb, pw);
    assert AllSpace([' '] + CRLF) && AllSpace(CRLF);
    if pw == [] {
      assert line == [] + verb + ([' '] + CRLF);
      TrimUnique([], verb, [' '] + CRLF);
    } else {
      var mid := verb + [' '] + pw;
      assert line == [] + mid + CRLF;
      assert mid[0] == verb[0] && mid[|mid| - 1] == pw[|pw| - 1];
      TrimUnique([], mid, CRLF);
      FindFirstAt(verb, ' ', pw);
      assert mid[|verb| + 1..] == pw;
    }
  }

  /** USER asks for a password, unless it was asked for already or no name comes with it. */
  lemma UserAnswers(cfg: Config, env: Env, s: Session, verb: string, user: string)
    requires s.Valid() && env.Valid() && !s.loginPrompted && Says(verb, USER)
    requires user != [] && forall i :: 0 <= i < |user| ==> !IsStreamSpace(user[i])
    ensures Serve(cfg, env, s, Line(verb, user)) ==
      Served(s.(username := user, loginPrompted := true), [Respond(331)], Stays)
    ensures Serve(cfg, env, s, Line(verb, [])) == Served(s, [Respond(500)], Stays)
  {
    hide Says, FirstWord, AfterWord, IsCommand, CommandOf, Line;
    assert !IsSpace(user[0]) && !IsSpace(user[|user| - 1]);
    LineParts(verb, USER, user);
    LineParts(verb, USER, []);
    FirstWordAt(user, CRLF);
    NoWord();
  }

  /** Between a command and the end of its line there is no word. */
  lemma NoWord()
    ensures FirstWord([' '] + [] + CRLF) == []
  {
    var blank: string := [' '] + [] + CRLF;
    assert blank[1..] == CRLF && CRLF[1..] == ['\n'] && ['\n'][1..] == [];
    assert SkipSpace(['\n']) == SkipSpace([]) == [];
    assert SkipSpace(CRLF) == SkipSpace(['\n']);
    assert SkipSpace(blank) == SkipSpace(CRLF);
  }

  // ----- the guard, and the commands without an argument -----

  predicate IsGuarded(c: Command) {
    c !in {USER, PASS, NOOP, SYST, QUIT, HELP, UNKNOWN}
  }

  /** A session that is not logged in is told so, whatever the command. */
  lemma GuardAnswers(cfg: Config, env: Env, s: Session, data: string, c: Command)
    requires s.Valid() && env.Valid() && !s.loggedIn && Says(FirstWord(data), c) && IsGuarded(c)
    ensures Serve(cfg, env, s, data) == Served(s, [Respond(530)], Stays)
  {
    hide CommandOf, FirstWord, IsCommand, Says;
    LineSays(data, c);
  }

  predicate StartsWithLetter(word: string) {
    word != [] && (word[0] in SMALL_LETTERS || word[0] in CAPITAL_LETTERS)
  }

  lemma LetterFirst(word: string)
    ensures StartsWithLetter(word) <==> word != [] && IsLetter(word[0])
  {
    if word != [] {
      SmallLetter(word[0]);
      CapitalLetter(word[0]);
    }
  }

  lemma SmallLetter(c: char)
    ensures c in SMALL_LETTERS <==> 'a' <= c <= 'z'
  {
    assert forall i :: 0 <= i < 26 ==> SMALL_LETTERS[i] as int == 97 + i;
    if 'a' <= c <= 'z' {
      assert SMALL_LETTERS[c as int - 97] == c;
    }
  }

  lemma CapitalLetter(c: char)
    ensures c in CAPITAL_LETTERS <==> 'A' <= c <= 'Z'
  {
    assert forall i :: 0 <= i < 26 ==> CAPITAL_LETTERS[i] as int == 65 + i;
    if 'A' <= c <= 'Z' {
      assert CAPITAL_LETTERS[c as int - 65] == c;
    }
  }

  /** What needs no login: NOOP, SYST, HELP and QUIT, unknown words, and lines that no word starts. */
  lemma FreeAnswers(cfg: Config, env: Env, s: Session, data: string)
    requires s.Valid() && env.Valid()
    ensures var r, word := Serve(cfg, env, s, data), FirstWord(data);
      && (Says(word, NOOP) || Says(word, SYST) ==> r == Served(s, [Respond(200)], Stays))
      && (Says(word, HELP) ==> r == Served(s, [Respond(502)], Stays))
      && (Says(word, QUIT) ==> r == Served(s, [Respond(221)], Erased))
      && (!StartsWithLetter(word) ==> r == Served(s, [], Stays))
      && (StartsWithLetter(word) && (forall c :: !Says(word, c)) ==> r == Served(s, [Respond(502)], Stays))
  {
    LetterFirst(FirstWord(data));
    hide CommandOf, FirstWord, Says, IsLetter, StartsWithLetter;
    LineSays(data, NOOP);
    LineSays(data, SYST);
    LineSays(data, HELP);
    LineSays(data, QUIT);
    if CommandOf(FirstWord(data)) != UNKNOWN {
      LineSays(data, CommandOf(FirstWord(data)));
    }
  }

  /** PWD, CDUP and LIST, once logged in. */
  lemma DirAnswers(cfg: Config, env: Env, s: Session, data: string)
    requires s.Valid() && env.Valid() && s.loggedIn
    ensures var r, word, here := Serve(cfg, env, s, data), FirstWord(data), s.homeDirectory + s.actualDir;
      && (Says(word, PWD) ==> r == Served(s, [RespondWith(200, s.actualDir)], Stays))
      && (Says(word, CDUP) ==> r == Served(s.(actualDir := r.session.actualDir), [Respond(250)], Stays))
      && (Says(word, LIST) ==>
            r == Served(s, [CheckDir(here), if env.isDir(here) then ListDir(here) else Respond(550)], Stays))
  {
    hide CommandOf, FirstWord, Says, IsCommand, Cdup;
    LineSays(data, PWD);
    LineSays(data, CDUP);
    LineSays(data, LIST);
  }

  // ----- settings -----

  /** TYPE: the first letter of its argument decides. */
  lemma TypeAnswers(cfg: Config, env: Env, s: Session, verb: string, kind: string)
    requires s.Valid() && env.Valid() && s.loggedIn && Says(verb, TYPE)
    requires kind != [] && forall i :: 0 <= i < |kind| ==> !IsStreamSpace(kind[i])
    ensures var r := Serve(cfg, env, s, Line(verb, kind));
      && (kind[0] in "iI" ==> r == Served(s.(transferType := TRANSFER_BINARY), [Respond(200)], Stays))
      && (kind[0] in "aA" ==> r == Served(s.(transferType := TRANSFER_ASCII), [Respond(200)], Stays))
      && (kind[0] !in "iIaA" ==> r == Served(s, [Respond(500)], Stays))
    ensures Serve(cfg, env, s, Line(verb, [])) == Served(s, [Respond(500)], Stays)
  {
    hide Serve, ServeType, Says, AfterWord, Line, Lower, FirstWord;
    assert !IsSpace(kind[0]) && !IsSpace(kind[|kind| - 1]);
    TypeServes(cfg, env, s, verb, kind);
    TypeServes(cfg, env, s, verb, []);
    FirstWordAt(kind, CRLF);
    NoWord();
    TypeServed(s, Line(verb, kind));
    TypeServed(s, Line(verb, []));
  }

  lemma TypeServes(cfg: Config, env: Env, s: Session, verb: string, kind: string)
    requires s.Valid() && env.Valid() && s.loggedIn && Says(verb, TYPE) && Trimmed(kind)
    ensures Serve(cfg, env, s, Line(verb, kind)) == ServeType(s, Line(verb, kind))
    ensures AfterWord(Line(verb, kind)) == [' '] + kind + CRLF
  {
    hide Says, FirstWord, AfterWord, IsCommand, CommandOf, Line, ServeType, Trimmed;
    LineParts(verb, TYPE, kind);
  }

  lemma TypeServed(s: Session, data: string)
    ensures var r, kind := ServeType(s, data), FirstWord(AfterWord(data));
      && (kind != [] && kind[0] in "iI" ==> r == Served(s.(transferType := TRANSFER_BINARY), [Respond(200)], Stays))
      && (kind != [] && kind[0] in "aA" ==> r == Served(s.(transferType := TRANSFER_ASCII), [Respond(200)], Stays))
      && (kind == [] || kind[0] !in "iIaA" ==> r == Served(s, [Respond(500)], Stays))
  {
    hide FirstWord, AfterWord;
    var kind := FirstWord(AfterWord(data));
    if kind != [] {
      assert Lower(kind)[0] == LowerChar(kind[0]);
    }
  }

  /** PASV: the address of the socket listened on, if one is; the mode is passive only then. */
  lemma PasvAnswers(cfg: Config, env: Env, s: Session, data: string)
    requires s.Valid() && env.Valid() && s.loggedIn && Says(FirstWord(data), PASV)
    ensures var r := Serve(cfg, env, s, data);
      && r.fate == Stays && r.session.Valid()
      && (env.passive.Listening? ==> r.session == s.(isPassive := true, address := env.passive.address))
      && (env.passive.NoName? ==> r.session == s.(isPassive := false, address := Address(s.address.ip, 0)))
      && (env.passive.ListenFailed? ==> r.session == s)
      && r.effects ==
           [OpenPassive, RespondWith(227, "Entering passive mode (" + PrintAddress(r.session.address) + ").")]
  {
    hide CommandOf, FirstWord, Says, IsCommand, PrintAddress;
    LineSays(data, PASV);
  }

  // ----- files -----

  /** Where a name leads: from the home directory if it starts with a slash, else from the working directory. */
  function Target(s: Session, name: string): string {
    s.homeDirectory + (if ['/'] <= name then name else s.actualDir + name)
  }

  /** MKD, RMD, DELE, STOR and RETR. MKD alone takes every name from the working directory. */
  lemma FileAnswers(cfg: Config, env: Env, s: Session, verb: string, c: Command, name: string)
    requires s.Valid() && env.Valid() && s.loggedIn && Says(verb, c) && Trimmed(name)
    ensures var r := Serve(cfg, env, s, Line(verb, name));
      && (c == MKD ==> r == Served(s,
            [MakeDir(s.homeDirectory + s.actualDir + name), Respond(if env.creates then 257 else 450)], Stays))
      && (c in {RMD, DELE} ==> r == Served(s,
            [Remove(Target(s, name)), Respond(if env.removes then 250 else 550)], Stays))
      && (c == STOR ==> r == Served(s, [Store(Target(s, name))], Stays))
      && (c == RETR ==> r == Served(s,
            [Find(Target(s, name)),
             if !env.fileExists then Respond(550) else if env.opens then Retrieve(Target(s, name)) else Respond(450)],
            Stays))
  {
    hide Serve, ServeFile, Says, Line, Trimmed, Target;
    if c in {MKD, RMD, DELE, STOR, RETR} {
      FileServes(cfg, env, s, verb, c, name);
      FileServed(env, s, c, name);
    }
  }

  lemma FileServes(cfg: Config, env: Env, s: Session, verb: string, c: Command, name: string)
    requires s.Valid() && env.Valid() && s.loggedIn && Says(verb, c) && Trimmed(name)
    requires c in {MKD, RMD, DELE, STOR, RETR}
    ensures Serve(cfg, env, s, Line(verb, name)) == ServeFile(env, s, c, name)
  {
    hide Says, FirstWord, AfterWord, IsCommand, CommandOf, Line, Trimmed, ServeFile, Argument;
    LineParts(verb, c, name);
  }

  lemma FileServed(env: Env, s: Session, c: Command, name: string)
    ensures var r := ServeFile(env, s, c, name);
      && (c == MKD ==> r == Served(s,
            [MakeDir(s.homeDirectory + s.actualDir + name), Respond(if env.creates then 257 else 450)], Stays))
      && (c in {RMD, DELE} ==> r == Served(s,
            [Remove(Target(s, name)), Respond(if env.removes then 250 else 550)], Stays))
      && (c == STOR ==> r == Served(s, [Store(Target(s, name))], Stays))
      && (c == RETR ==> r == Served(s,
            [Find(Target(s, name)),
             if !env.fileExists then Respond(550) else if env.opens then Retrieve(Target(s, name)) else Respond(450)],
            Stays))
  {
    TargetIs(s, name);
    hide PathTo, Target;
  }

  lemma TargetIs(s: Session, name: string)
    ensures PathTo(s, name) == Target(s, name)
  {
    assert ['/'] <= name <==> name != [] && name[0] == '/';
    assert s.homeDirectory + s.actualDir + name == s.homeDirectory + (s.actualDir + name);
  }

  /** The directory with a slash at its end. */
  function Slashed(dir: string): string {
    if dir != [] && dir[|dir| - 1] == '/' then dir else dir + ['/']
  }

  /** What CWD comes to: the directory it leaves the session in, the one it looks for, and its code. */
  predicate CwdComesTo(env: Env, s: Session, r: Served, left: string, asked: string, found: int, unless: int) {
    var path := s.homeDirectory + asked;
    r == Served(s.(actualDir := left), [CheckDir(path), Respond(if env.isDir(path) then found else unless)], Stays)
  }

  lemma DotServes(env: Env, s: Session)
    requires s.Valid()
    ensures CwdComesTo(env, s, ServeCwd(env, s, ['.']), s.actualDir, s.actualDir, 200, 550)
  {
  }

  lemma PathServes(env: Env, s: Session, dir: string)
    requires s.Valid() && ['/'] <= dir
    ensures CwdComesTo(env, s, ServeCwd(env, s, dir), Slashed(dir), Slashed(dir), 200, 550)
  {
    assert dir[0] == '/' && ['.'][0] == '.' && ['.', '.'][0] == '.';
    assert WithSlash(dir) == Slashed(dir);
    hide WithSlash, Slashed;
  }

  lemma DotsServe(env: Env, s: Session)
    requires s.Valid()
    ensures var r := ServeCwd(env, s, ['.', '.']);
      if s.actualDir == ['/'] then r == Served(s, [Respond(200)], Stays)
      else CwdComesTo(env, s, r, Parent(s.actualDir), Parent(s.actualDir), 200, 550)
  {
    var dots := ['.', '.'];
    assert |dots| == 2 && dots[0] == '.';
    if s.actualDir == ['/'] {
      assert Parent(s.actualDir) == s.actualDir && s.(actualDir := s.actualDir) == s;
      assert [] + [Respond(200)] == [Respond(200)];
    }
    hide Parent;
  }

  lemma NameServes(env: Env, s: Session, dir: string)
    requires s.Valid() && dir != ['.'] && dir != ['.', '.'] && !(['/'] <= dir)
    ensures CwdComesTo(env, s, ServeCwd(env, s, dir),
      if env.isDir(s.homeDirectory + (s.actualDir + dir)) then Slashed(s.actualDir + dir) else s.actualDir,
      s.actualDir + dir, 250, 550)
  {
    assert dir == [] || dir[0] != '/';
    assert WithSlash(s.actualDir + dir) == Slashed(s.actualDir + dir);
    hide WithSlash, Slashed, Parent;
  }

  lemma CwdServes(cfg: Config, env: Env, s: Session, verb: string, dir: string)
    requires s.Valid() && env.Valid() && s.loggedIn && Says(verb, CWD) && Trimmed(dir)
    ensures Serve(cfg, env, s, Line(verb, dir)) == ServeCwd(env, s, dir)
  {
    hide Says, FirstWord, AfterWord, IsCommand, CommandOf, Line, Trimmed, ServeCwd, Argument;
    LineParts(verb, CWD, dir);
  }

  /**
   CWD: a dot stays, two dots leave the last name, a path with a slash in front replaces the directory, all
   answered 200 or 550 but changed even if what they lead to does not exist. Only a relative name is entered
   with 250, and not at all if it does not exist.
   */
  lemma CwdAnswers(cfg: Config, env: Env, s: Session, verb: string, dir: string)
    requires s.Valid() && env.Valid() && s.loggedIn && Says(verb, CWD) && Trimmed(dir)
    ensures var r := Serve(cfg, env, s, Line(verb, dir));
      if dir == ['.'] then CwdComesTo(env, s, r, s.actualDir, s.actualDir, 200, 550)
      else if ['/'] <= dir then CwdComesTo(env, s, r, Slashed(dir), Slashed(dir), 200, 550)
      else if dir == ['.', '.'] then
        if s.actualDir == ['/'] then r == Served(s, [Respond(200)], Stays)
        else CwdComesTo(env, s, r, Parent(s.actualDir), Parent(s.actualDir), 200, 550)
      else
        CwdComesTo(env, s, r,
          if env.isDir(s.homeDirectory + (s.actualDir + dir)) then Slashed(s.actualDir + dir) else s.actualDir,
          s.actualDir + dir, 250, 550)
  {
    hide Serve, ServeCwd, CwdComesTo, Parent, Slashed, Line, Says, Trimmed;
    CwdServes(cfg, env, s, verb, dir);
    if dir == ['.'] {
      DotServes(env, s);
    } else if ['/'] <= dir {
      PathServes(env, s, dir);
    } else if dir == ['.', '.'] {
      DotsServe(env, s);
    } else {
      NameServes(env, s, dir);
    }
  }

  /** Without a blank to cut at, a command with an argument raises an exception. */
  lemma NoArgument(cfg: Config, env: Env, s: Session, data: string, c: Command)
    requires s.Valid() && env.Valid() && s.loggedIn && Says(FirstWord(data), c) && ' ' !in data
    requires c in {CWD, MKD, RMD, DELE, STOR, RETR}
    ensures Serve(cfg, env, s, data) == Served(s, [], Undefined)
  {
    hide CommandOf, FirstWord, Says, IsCommand;
    LineSays(data, c);
  }
}
