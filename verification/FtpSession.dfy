/**
 FTP control sessions: the login machine, the commands it guards, and the map of sessions by descriptor.

 The file system, the user database and the kernel are the environment of an event; what a command asks
 of them is recorded as effects.
 */
module FtpSession {
  import opened Basics
  import opened Text
  import opened FtpAddress
  import opened FtpDirectory

  datatype Config = Config(allowGuests: bool, useDbAuth: bool, rootDirectory: string)

  datatype TransferType = TRANSFER_BINARY | TRANSFER_ASCII

  datatype Session = Session(
    username: string, password: string, actualDir: string, homeDirectory: string, transferType: TransferType,
    address: Address, loginPrompted: bool, loggedIn: bool, isPassive: bool)
  {
    predicate Valid() {
      Absolute(actualDir) && address.Valid()
    }
  }

  const NEW_SESSION := Session("", "", ['/'], ['.'], TRANSFER_BINARY, Address([0, 0, 0, 0], 20), false, false, false)

  datatype PassiveOutcome = Listening(address: Address) | NoName | ListenFailed

  /** What the world answers while one command is processed. */
  datatype Env = Env(
    dbAccepts: (string, string) -> bool, dbHome: string, isDir: string -> bool, creates: bool, removes: bool,
    fileExists: bool, opens: bool, passive: PassiveOutcome)
  {
    predicate Valid() {
      passive.Listening? ==> passive.address.Valid()
    }
  }

  datatype Effect =
    | Respond(code: int)
    | RespondWith(code: int, text: string)
    | CheckDir(path: string) | ListDir(path: string) | MakeDir(path: string) | Remove(path: string)
    | Store(path: string) | Retrieve(path: string) | Find(path: string)
    | SetAddress(address: Address) | OpenPassive
  {
    /** An effect on directories, files or the data connection. */
    predicate Guarded() {
      !Respond? && !RespondWith?
    }
  }

  /** What becomes of the session; `Undefined` is an escaped exception or a write past the nine slots of PORT. */
  datatype Fate = Stays | Erased | Undefined

  datatype Served = Served(session: Session, effects: seq<Effect>, fate: Fate)

  datatype Command = USER | PASS | CWD | PWD | CDUP | MKD | RMD | PORT | PASV | TYPE | QUIT | HELP | NOOP | SYST
    | STOR | RETR | DELE | LIST | UNKNOWN

  // ----- taking a line apart -----

  /** What stream extraction of a string takes, and what it leaves. */
  function WordEnd(s: string): (n: nat)
    ensures n <= |s|
  {
    if s == [] || IsStreamSpace(s[0]) then 0 else 1 + WordEnd(s[1..])
  }

  function FirstWord(s: string): string {
    var t := SkipSpace(s);
    t[..WordEnd(t)]
  }

  function AfterWord(s: string): string {
    var t := SkipSpace(s);
    t[WordEnd(t)..]
  }

  function CommandOf(word: string): Command {
    var w := Lower(word);
    if w == "user" then USER else if w == "pass" then PASS
    else if w == "cwd" then CWD else if w == "pwd" then PWD else if w == "cdup" then CDUP
    else if w == "mkd" then MKD else if w == "rmd" then RMD
    else if w == "port" then PORT else if w == "pasv" then PASV else if w == "type" then TYPE
    else if w == "quit" then QUIT else if w == "help" then HELP
    else if w == "noop" then NOOP else if w == "syst" then SYST
    else if w == "stor" then STOR else if w == "retr" then RETR
    else if w == "dele" then DELE else if w == "list" then LIST
    else UNKNOWN
  }

  predicate IsLetter(c: char) {
    'a' <= c <= 'z' || 'A' <= c <= 'Z'
  }

  /** The first word starts with a letter; anything else is dropped without an answer. */
  predicate IsCommand(data: string) {
    FirstWord(data) != [] && IsLetter(FirstWord(data)[0])
  }

  function Password(data: string): string {
    var strdata := Trim(data);
    Substr(strdata, FindFirst(strdata, ' ') + 1, NPOS)
  }

  /** The argument of a command that cuts the raw line at its first blank; without a blank the cut throws. */
  function Argument(data: string): string
    requires ' ' in data
  {
    Trim(Substr(data, FindFirst(data, ' '), NPOS))
  }

  /**
   A PASS line always has a password: without a blank it is the whole line, and a trimmed line does not end
   in one.
   */
  lemma PasswordNeverEmpty(data: string)
    requires Trim(data) != []
    ensures Password(data) != []
    ensures ' ' !in Trim(data) ==> Password(data) == Trim(data)
  {
    hide Trim;
  }

  // ----- the commands -----

  predicate IsGuest(cfg: Config, username: string) {
    Lower(username) == "anonymous" && cfg.allowGuests
  }

  function ServeUser(s: Session, data: string): Served {
    if s.loginPrompted then Served(s, [], Stays)
    else
      var user := FirstWord(AfterWord(data));
      if user == [] then Served(s, [Respond(500)], Stays)
      else Served(s.(username := user, loginPrompted := true), [Respond(331)], Stays)
  }

  function ServePass(cfg: Config, env: Env, s: Session, data: string): Served {
    if !s.loginPrompted then Served(s, [], Stays)
    else if IsGuest(cfg, s.username) then Served(s.(loginPrompted := false, loggedIn := true), [Respond(230)], Stays)
    else if Password(data) == [] then Served(s.(loginPrompted := false), [Respond(500)], Stays)
    else
      var s1 := s.(password := Password(data), loginPrompted := false);
      if cfg.useDbAuth && !env.dbAccepts(s.username, Password(data)) then Served(s1, [Respond(530)], Stays)
      else
        var home := if cfg.useDbAuth then env.dbHome else s.homeDirectory;
        Served(s1.(homeDirectory := home, loggedIn := true), [Respond(230)], Stays)
  }

  function PathTo(s: Session, name: string): string {
    if name != [] && name[0] == '/' then s.homeDirectory + name else s.homeDirectory + s.actualDir + name
  }

  function ServePort(s: Session, data: string): Served {
    var strdata := Trim(data);
    if ' ' !in strdata then Served(s, [], Undefined)
    else
      var addr := Substr(strdata, FindFirst(strdata, ' '), NPOS);
      if Commas(addr) > 8 then Served(s, [], Undefined)
      else
        var a := AddressOf(Slots(addr));
        Served(s.(address := a, isPassive := false), [SetAddress(a), Respond(200)], Stays)
  }

  function ServePasv(env: Env, s: Session): Served
    requires s.Valid() && env.Valid()
  {
    var s1 := match env.passive
      case Listening(a) => s.(isPassive := true, address := a)
      case NoName => s.(isPassive := false, address := s.address.(port := 0))
      case ListenFailed => s;
    Served(s1, [OpenPassive, RespondWith(227, "Entering passive mode (" + PrintAddress(s1.address) + ").")], Stays)
  }

  function ServeCwd(env: Env, s: Session, dir: string): Served
    requires s.Valid()
  {
    var isDir := (d: string) => env.isDir(s.homeDirectory + d);
    var r := Cwd(s.actualDir, dir, isDir);
    var named := dir != ['.'] && dir != ['.', '.'] && (dir == [] || dir[0] != '/');
    var asked := if dir == ['.', '.'] && s.actualDir == ['/'] then []
      else [CheckDir(s.homeDirectory + (if named then s.actualDir + dir else r.actualDir))];
    Served(s.(actualDir := r.actualDir), asked + [Respond(r.code)], Stays)
  }

  function ServeFile(env: Env, s: Session, c: Command, name: string): Served {
    match c
    case MKD =>
      var response := Respond(if env.creates then 257 else 450);
      Served(s, [MakeDir(s.homeDirectory + s.actualDir + name), response], Stays)
    case STOR => Served(s, [Store(PathTo(s, name))], Stays)
    case RETR =>
      if !env.fileExists then Served(s, [Find(PathTo(s, name)), Respond(550)], Stays)
      else if !env.opens then Served(s, [Find(PathTo(s, name)), Respond(450)], Stays)
      else Served(s, [Find(PathTo(s, name)), Retrieve(PathTo(s, name))], Stays)
    case _ => Served(s, [Remove(PathTo(s, name)), Respond(if env.removes then 250 else 550)], Stays)
  }

  function ServeType(s: Session, data: string): Served {
    var t := Lower(FirstWord(AfterWord(data)));
    if t != [] && t[0] == 'i' then Served(s.(transferType := TRANSFER_BINARY), [Respond(200)], Stays)
    else if t != [] && t[0] == 'a' then Served(s.(transferType := TRANSFER_ASCII), [Respond(200)], Stays)
    else Served(s, [Respond(500)], Stays)
  }

  /** The commands that answer 530 to a session that is not logged in, once it is. */
  function ServeLoggedIn(env: Env, s: Session, c: Command, data: string): Served
    requires s.Valid() && env.Valid()
  {
    match c
    case PWD => Served(s, [RespondWith(200, s.actualDir)], Stays)
    case TYPE => ServeType(s, data)
    case PORT => ServePort(s, data)
    case CDUP => Served(s.(actualDir := Cdup(s.actualDir)), [Respond(250)], Stays)
    case PASV => ServePasv(env, s)
    case LIST =>
      var dir := s.homeDirectory + s.actualDir;
      Served(s, if env.isDir(dir) then [CheckDir(dir), ListDir(dir)] else [CheckDir(dir), Respond(550)], Stays)
    case _ =>
      if ' ' !in data then Served(s, [], Undefined)
      else if c == CWD then ServeCwd(env, s, Argument(data))
      else ServeFile(env, s, c, Argument(data))
  }

  function Serve(cfg: Config, env: Env, s: Session, data: string): Served
    requires s.Valid() && env.Valid()
  {
    if !IsCommand(data) then Served(s, [], Stays)
    else
      match CommandOf(FirstWord(data))
      case USER => ServeUser(s, data)
      case PASS => ServePass(cfg, env, s, data)
      case NOOP => Served(s, [Respond(200)], Stays)
      case SYST => Served(s, [Respond(200)], Stays)
      case QUIT => Served(s, [Respond(221)], Erased)
      case HELP => Served(s, [Respond(502)], Stays)
      case UNKNOWN => Served(s, [Respond(502)], Stays)
      case c => if !s.loggedIn then Served(s, [Respond(530)], Stays) else ServeLoggedIn(env, s, c, data)
  }

  // ----- the server as a value -----

  type Sessions = map<int, Session>

  datatype ServerEvent =
    | Connect(fd: int)
    | Disconnect(fd: int)
    | Receive(fd: int, data: string, env: Env)

  ghost predicate ValidEvent(e: ServerEvent) {
    e.Receive? ==> e.env.Valid()
  }

  ghost predicate ValidSessions(m: Sessions) {
    forall fd :: fd in m ==> m[fd].Valid()
  }

  /** `sessionData[fd]`, which makes a new session where there is none. */
  function SessionOf(m: Sessions, fd: int): (s: Session)
    ensures ValidSessions(m) ==> s.Valid()
  {
    if fd in m then m[fd] else NEW_SESSION
  }

  function StepEffects(cfg: Config, m: Sessions, e: ServerEvent): seq<Effect>
    requires ValidSessions(m) && ValidEvent(e)
  {
    match e
    case Receive(fd, data, env) => Serve(cfg, env, SessionOf(m, fd), data).effects
    case Connect(_) => [Respond(220)]
    case Disconnect(_) => []
  }

  function StepSessions(cfg: Config, m: Sessions, e: ServerEvent): Sessions
    requires ValidSessions(m) && ValidEvent(e)
  {
    match e
    case Connect(fd) => m[fd := SessionOf(m, fd).(homeDirectory := cfg.rootDirectory)]
    case Disconnect(fd) => m - {fd}
    case Receive(fd, data, env) =>
      var r := Serve(cfg, env, SessionOf(m, fd), data);
      if r.fate == Erased then m - {fd} else m[fd := r.session]
  }

  // ----- the server -----

  class FtpServer {
    const cfg: Config
    var sessionData: Sessions

    ghost predicate Valid()
      reads this
    {
      ValidSessions(sessionData)
    }

    constructor (cfg: Config)
      ensures Valid() && this.cfg == cfg && sessionData == map[]
    {
      this.cfg := cfg;
      sessionData := map[];
    }

    method ProcessConnect(fd: int) returns (effects: seq<Effect>)
      requires Valid()
      modifies this
      ensures sessionData == StepSessions(cfg, old(sessionData), Connect(fd)) && Valid()
      ensures effects == StepEffects(cfg, old(sessionData), Connect(fd))
    {
      effects := [Respond(220)];
      var session := SessionOf(sessionData, fd);
      session := session.(homeDirectory := cfg.rootDirectory);
      sessionData := sessionData[fd := session];
    }

    method ProcessDisconnect(fd: int)
      requires Valid()
      modifies this
      ensures sessionData == StepSessions(cfg, old(sessionData), Disconnect(fd)) && Valid()
    {
      if fd in sessionData {
        sessionData := sessionData - {fd};
      } else {
        assert sessionData - {fd} == sessionData;
      }
    }

    method ProcessReceive(fd: int, data: string, env: Env) returns (effects: seq<Effect>, fate: Fate)
      requires Valid() && env.Valid()
      modifies this
      ensures sessionData == StepSessions(cfg, old(sessionData), Receive(fd, data, env)) && Valid()
      ensures effects == StepEffects(cfg, old(sessionData), Receive(fd, data, env))
      ensures fate == Serve(cfg, env, SessionOf(old(sessionData), fd), data).fate
    {
      hide Serve;
      var session := SessionOf(sessionData, fd);
      ServeKeepsValid(cfg, env, session, data);
      sessionData := sessionData[fd := session];
      session, effects, fate := ProcessCommand(cfg, session, data, env);
      if fate == Erased {
        sessionData := sessionData - {fd};
        assert sessionData == old(sessionData) - {fd};
      } else {
        sessionData := sessionData[fd := session];
      }
    }
  }

  method ProcessCommand(cfg: Config, session: Session, data: string, env: Env)
      returns (s: Session, effects: seq<Effect>, fate: Fate)
    requires session.Valid() && env.Valid()
    ensures Served(s, effects, fate) == Serve(cfg, env, session, data)
  {
    hide CommandOf, IsCommand, FirstWord, ServeUser, ServePass, ServeLoggedIn;
    s, effects, fate := session, [], Stays;
    if !IsCommand(data) {
      return;
    }
    var command := CommandOf(FirstWord(data));
    match command {
      case USER => s, effects := ProcessUser(s, data);
      case PASS => s, effects := ProcessPass(cfg, s, data, env);
      case NOOP => effects := [Respond(200)];
      case SYST => effects := [Respond(200)];
      case HELP => effects := [Respond(502)];
      case UNKNOWN => effects := [Respond(502)];
      case QUIT => effects, fate := [Respond(221)], Erased;
      case _ =>
        if !s.loggedIn {
          effects := [Respond(530)];
        } else {
          s, effects, fate := ProcessLoggedIn(s, command, data, env);
        }
    }
  }

  method ProcessUser(session: Session, data: string) returns (s: Session, effects: seq<Effect>)
    ensures Served(s, effects, Stays) == ServeUser(session, data)
  {
    s, effects := session, [];
    if s.loginPrompted {
      return;
    }
    var user := FirstWord(AfterWord(data));
    if |user| == 0 {
      effects := [Respond(500)];
      return;
    }
    s := s.(username := user);
    s := s.(loginPrompted := true);
    effects := [Respond(331)];
  }

  method ProcessPass(cfg: Config, session: Session, data: string, env: Env) returns (s: Session, effects: seq<Effect>)
    ensures Served(s, effects, Stays) == ServePass(cfg, env, session, data)
  {
    s, effects := session, [];
    if !s.loginPrompted {
      return;
    }
    var password := Password(data);
    if IsGuest(cfg, s.username) {
      s := s.(loginPrompted := false);
      s := s.(loggedIn := true);
      effects := [Respond(230)];
      return;
    }
    if |password| == 0 {
      s := s.(loginPrompted := false);
      effects := [Respond(500)];
      return;
    }
    s := s.(password := password);
    if cfg.useDbAuth {
      if !env.dbAccepts(s.username, s.password) {
        s := s.(loginPrompted := false);
        effects := [Respond(530)];
        return;
      }
      s := s.(homeDirectory := env.dbHome);
    }
    s := s.(loginPrompted := false);
    s := s.(loggedIn := true);
    effects := [Respond(230)];
  }

  method ProcessLoggedIn(session: Session, command: Command, data: string, env: Env)
      returns (s: Session, effects: seq<Effect>, fate: Fate)
    requires session.Valid() && env.Valid()
    ensures Served(s, effects, fate) == ServeLoggedIn(env, session, command, data)
  {
    hide ServeCwd, ServeFile, ServeType, ServePort, ServePasv, Cdup, Trim, FindFirst;
    s, effects, fate := session, [], Stays;
    match command {
      case PWD => effects := [RespondWith(200, s.actualDir)];
      case TYPE =>
        var r := ServeType(s, data);
        s, effects := r.session, r.effects;
        TypeStays(session, data);
      case PORT => s, effects, fate := ProcessPort(s, data);
      case CDUP =>
        var changeTo := CdupInPlace(s.actualDir);
        s := s.(actualDir := changeTo);
        effects := [Respond(250)];
      case PASV => s, effects := ProcessPasv(s, env);
      case LIST =>
        var dir := s.homeDirectory + s.actualDir;
        effects := if env.isDir(dir) then [CheckDir(dir), ListDir(dir)] else [CheckDir(dir), Respond(550)];
      case _ =>
        if ' ' !in data {
          fate := Undefined;
          return;
        }
        var argument := TrimInPlace(Substr(data, FindFirst(data, ' '), NPOS));
        if command == CWD {
          s, effects := ProcessCwd(s, argument, env);
        } else {
          effects := ProcessFile(s, command, argument, env);
        }
    }
  }

  method ProcessPort(session: Session, data: string) returns (s: Session, effects: seq<Effect>, fate: Fate)
    ensures Served(s, effects, fate) == ServePort(session, data)
  {
    hide Trim, Slots, Commas, AddressOf;
    s, effects, fate := session, [], Undefined;
    var strdata := TrimInPlace(data);
    if ' ' !in strdata {
      return;
    }
    var addr := Substr(strdata, FindFirst(strdata, ' '), NPOS);
    if Commas(addr) > 8 {
      return;
    }
    var address := ParsePort(addr);
    s := s.(address := address, isPassive := false);
    effects, fate := [SetAddress(address), Respond(200)], Stays;
  }

  method ProcessPasv(session: Session, env: Env) returns (s: Session, effects: seq<Effect>)
    requires session.Valid() && env.Valid()
    ensures Served(s, effects, Stays) == ServePasv(env, session)
  {
    hide PrintAddress;
    s := session;
    if env.passive.Listening? {
      s := s.(isPassive := true, address := env.passive.address);
    } else if env.passive.NoName? {
      s := s.(isPassive := false, address := s.address.(port := 0));
    }
    effects := [OpenPassive, RespondWith(227, "Entering passive mode (" + PrintAddress(s.address) + ").")];
  }

  lemma TypeStays(s: Session, data: string)
    ensures ServeType(s, data).fate == Stays
  {
    hide Lower, FirstWord, AfterWord;
  }

  method ProcessCwd(session: Session, dir: string, env: Env) returns (s: Session, effects: seq<Effect>)
    requires session.Valid()
    ensures Served(s, effects, Stays) == ServeCwd(env, session, dir)
  {
    hide Cwd;
    var home := session.homeDirectory;
    var actualDir, code := CwdInPlace(session.actualDir, dir, (d: string) => env.isDir(home + d));
    s := session.(actualDir := actualDir);
    if dir == ['.', '.'] && session.actualDir == ['/'] {
      effects := [Respond(code)];
    } else if dir == ['.'] || dir == ['.', '.'] || (|dir| > 0 && dir[0] == '/') {
      effects := [CheckDir(home + actualDir), Respond(code)];
    } else {
      effects := [CheckDir(home + (session.actualDir + dir)), Respond(code)];
    }
  }

  method ProcessFile(s: Session, command: Command, name: string, env: Env) returns (effects: seq<Effect>)
    ensures Served(s, effects, Stays) == ServeFile(env, s, command, name)
  {
    var address := s.homeDirectory + s.actualDir + name;
    if command == MKD {
      return [MakeDir(address), Respond(if env.creates then 257 else 450)];
    }
    if |name| > 0 && name[0] == '/' {
      address := s.homeDirectory + name;
    }
    if command == STOR {
      return [Store(address)];
    }
    if command == RETR {
      if !env.fileExists {
        return [Find(address), Respond(550)];
      }
      if !env.opens {
        return [Find(address), Respond(450)];
      }
      return [Find(address), Retrieve(address)];
    }
    return [Remove(address), Respond(if env.removes then 250 else 550)];
  }

  lemma ServeKeepsValid(cfg: Config, env: Env, s: Session, data: string)
    requires s.Valid() && env.Valid()
    ensures Serve(cfg, env, s, data).session.Valid()
  {
    hide CommandOf, IsCommand, FirstWord, AfterWord, Password, IsGuest, ServeLoggedIn;
    ServeLoggedInKeepsValid(env, s, CommandOf(FirstWord(data)), data);
  }

  lemma ServeLoggedInKeepsValid(env: Env, s: Session, c: Command, data: string)
    requires s.Valid() && env.Valid()
    ensures ServeLoggedIn(env, s, c, data).session.Valid()
  {
    hide FirstWord, AfterWord, Slots, Commas, AddressOf, Cdup, Cwd, PrintAddress, Trim, Lower, PathTo;
  }

  function PathOf(e: Effect): Option<string> {
    match e
    case CheckDir(p) => Some(p)
    case ListDir(p) => Some(p)
    case MakeDir(p) => Some(p)
    case Remove(p) => Some(p)
    case Store(p) => Some(p)
    case Retrieve(p) => Some(p)
    case Find(p) => Some(p)
    case _ => None
  }

  ghost predicate PathsBelow(prefix: string, effects: seq<Effect>) {
    forall i :: 0 <= i < |effects| && PathOf(effects[i]).Some? ==> prefix <= PathOf(effects[i]).value
  }

  /** Every path a command names is the session's home directory followed by a path that starts at its root. */
  lemma PathsStartAtHome(cfg: Config, env: Env, s: Session, data: string)
    requires s.Valid() && env.Valid()
    ensures PathsBelow(s.homeDirectory + ['/'], Serve(cfg, env, s, data).effects)
  {
    hide CommandOf, IsCommand, FirstWord, AfterWord, Password, IsGuest, ServeLoggedIn;
    LoggedInPathsStartAtHome(env, s, CommandOf(FirstWord(data)), data);
  }

  lemma LoggedInPathsStartAtHome(env: Env, s: Session, c: Command, data: string)
    requires s.Valid() && env.Valid()
    ensures PathsBelow(s.homeDirectory + ['/'], ServeLoggedIn(env, s, c, data).effects)
  {
    hide FirstWord, AfterWord, Slots, Commas, AddressOf, Cdup, PrintAddress, Trim, Lower, Argument, ServeFile,
      ServeCwd, FindFirst;
    if ' ' in data {
      FilePathsStartAtHome(env, s, c, Argument(data));
      CwdPathsStartAtHome(env, s, Argument(data));
    }
  }

  lemma FilePathsStartAtHome(env: Env, s: Session, c: Command, name: string)
    requires s.Valid()
    ensures PathsBelow(s.homeDirectory + ['/'], ServeFile(env, s, c, name).effects)
  {
    assert (s.homeDirectory + s.actualDir + name)[|s.homeDirectory|] == s.actualDir[0];
    assert s.homeDirectory + ['/'] <= s.homeDirectory + s.actualDir + name;
    assert s.homeDirectory + ['/'] <= PathTo(s, name);
    hide PathTo;
  }

  lemma CwdPathsStartAtHome(env: Env, s: Session, dir: string)
    requires s.Valid()
    ensures PathsBelow(s.homeDirectory + ['/'], ServeCwd(env, s, dir).effects)
  {
    hide Cwd;
  }
}
