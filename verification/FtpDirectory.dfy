/**
 The working directory of an FTP session: the string edits of CWD and CDUP, and the stack of names they
 stand for (section 4.1.1 of RFC 959).
 */
module FtpDirectory {
  import opened Text

  // ----- the string edits -----

  /** Every working directory starts at the root. */
  predicate Absolute(s: string) {
    s != [] && s[0] == '/'
  }

  function WithSlash(s: string): string {
    if s == [] || s[|s| - 1] != '/' then s + ['/'] else s
  }

  /** CDUP. Its first cut also takes the last character of the name. */
  function Cdup(actualDir: string): (r: string)
    ensures Absolute(actualDir) ==> Absolute(r)
  {
    var cut := Substr(actualDir, 0, FindLastNotOf(actualDir, '/'));
    var changeTo := Substr(cut, 0, FindLast(cut, '/'));
    if changeTo == [] then ['/'] else changeTo
  }

  /** CWD with "..": without its final slash the directory is cut at the last one. */
  function Parent(actualDir: string): (r: string)
    requires Absolute(actualDir)
    ensures Absolute(r)
  {
    if actualDir == ['/'] then actualDir
    else
      var bare := if actualDir[|actualDir| - 1] == '/' then actualDir[..|actualDir| - 1] else actualDir;
      assert bare[0] == actualDir[0];
      WithSlash(bare[..FindLast(bare, '/')])
  }

  datatype CwdResult = CwdResult(actualDir: string, code: int)

  /** CWD; `isDir` tells which directories exist below the session's home. */
  function Cwd(actualDir: string, dir: string, isDir: string -> bool): (r: CwdResult)
    requires Absolute(actualDir)
    ensures Absolute(r.actualDir)
  {
    if dir == ['.'] then
      CwdResult(actualDir, if isDir(actualDir) then 200 else 550)
    else if dir != [] && dir[0] == '/' then
      CwdResult(WithSlash(dir), if isDir(WithSlash(dir)) then 200 else 550)
    else if dir == ['.', '.'] then
      CwdResult(Parent(actualDir), if actualDir == ['/'] || isDir(Parent(actualDir)) then 200 else 550)
    else if !isDir(actualDir + dir) then
      CwdResult(actualDir, 550)
    else
      CwdResult(WithSlash(actualDir + dir), 250)
  }

  method CdupInPlace(actualDir: string) returns (changeTo: string)
    ensures changeTo == Cdup(actualDir)
  {
    changeTo := Substr(actualDir, 0, FindLastNotOf(actualDir, '/'));
    changeTo := Substr(changeTo, 0, FindLast(changeTo, '/'));
    if |changeTo| == 0 {
      changeTo := ['/'];
    }
  }

  /** The body of CWD, editing the session's directory step by step and before it asks whether the result exists. */
  method CwdInPlace(actualDir: string, dir: string, isDir: string -> bool) returns (r: string, code: int)
    requires Absolute(actualDir)
    ensures CwdResult(r, code) == Cwd(actualDir, dir, isDir)
  {
    r := actualDir;
    if dir == ['.'] {
      return r, if isDir(r) then 200 else 550;
    }
    if |dir| > 0 && dir[0] == '/' {
      r := dir;
      if r[|r| - 1] != '/' {
        r := r + ['/'];
      }
      return r, if isDir(r) then 200 else 550;
    }
    if dir == ['.', '.'] {
      if r == ['/'] {
        return r, 200;
      }
      if r[|r| - 1] == '/' {
        r := r[..|r| - 1];
      }
      assert r[0] == '/';
      r := r[..FindLast(r, '/')];
      if |r| == 0 || r[|r| - 1] != '/' {
        r := r + ['/'];
      }
      return r, if isDir(r) then 200 else 550;
    }
    if !isDir(r + dir) {
      return r, 550;
    }
    r := r + dir;
    if r[|r| - 1] != '/' {
      r := r + ['/'];
    }
    return r, 250;
  }

  // ----- the stack of names -----

  predicate SimpleName(n: string) {
    n != [] && '/' !in n && n != ['.'] && n != ['.', '.']
  }

  /** A stack of names, and whether the string that stands for it has its final slash. */
  datatype Stack = Stack(names: seq<string>, slash: bool)
  {
    predicate Valid() {
      (forall i :: 0 <= i < |names| ==> SimpleName(names[i])) && (names == [] ==> slash)
    }

    function Pop(finalSlash: bool): Stack {
      if |names| <= 1 then Stack([], true) else Stack(names[..|names| - 1], finalSlash)
    }
  }

  function RenderNames(names: seq<string>): (r: string)
    ensures r != [] && r[0] == '/' && r[|r| - 1] == '/'
    ensures names == [] <==> r == ['/']
  {
    if names == [] then ['/'] else
      var init := RenderNames(names[..|names| - 1]);
      assert (init + names[|names| - 1] + ['/'])[0] == init[0];
      init + names[|names| - 1] + ['/']
  }

  function Render(d: Stack): (r: string)
    requires d.Valid()
    ensures Absolute(r)
  {
    if d.slash then RenderNames(d.names)
    else
      var init := RenderNames(d.names[..|d.names| - 1]);
      assert (init + d.names[|d.names| - 1])[0] == init[0];
      init + d.names[|d.names| - 1]
  }

  datatype Move =
    | Up                              // CDUP
    | Here                            // CWD .
    | Back                            // CWD ..
    | To(target: Stack)               // CWD with an absolute, normalised path
    | Into(name: string, present: bool)  // CWD with a simple name

  predicate ValidMove(m: Move) {
    match m
    case To(target) => target.Valid()
    case Into(name, _) => SimpleName(name)
    case _ => true
  }

  /** What a command does to the stack: a name that meets a missing final slash is glued to the name on top. */
  function MoveStack(d: Stack, m: Move): Stack
    requires d.Valid()
  {
    match m
    case Up => d.Pop(false)
    case Here => d
    case Back => d.Pop(true)
    case To(target) => Stack(target.names, true)
    case Into(name, present) =>
      if !present then d
      else if d.slash then Stack(d.names + [name], true)
      else Stack(d.names[..|d.names| - 1] + [d.names[|d.names| - 1] + name], true)
  }

  /** What the command should do: push, pop, replace. */
  function MoveIdeal(names: seq<string>, m: Move): seq<string> {
    match m
    case Up => if names == [] then [] else names[..|names| - 1]
    case Here => names
    case Back => if names == [] then [] else names[..|names| - 1]
    case To(target) => target.names
    case Into(name, present) => if present then names + [name] else names
  }

  /** What the same command does to the string. */
  function MoveString(s: string, m: Move): string
    requires Absolute(s) && ValidMove(m)
  {
    match m
    case Up => Cdup(s)
    case Here => Cwd(s, ['.'], (_: string) => true).actualDir
    case Back => Cwd(s, ['.', '.'], (_: string) => true).actualDir
    case To(target) => Cwd(s, Render(target), (_: string) => true).actualDir
    case Into(name, present) => Cwd(s, name, (_: string) => present).actualDir
  }

  // ----- the edits are the stack operations -----

  /** A directory below the root, as the text up to its last name and that name. */
  lemma RenderTop(d: Stack)
    requires d.Valid() && d.names != []
    ensures var init, last := RenderNames(d.names[..|d.names| - 1]), d.names[|d.names| - 1];
      Render(d) == (if d.slash then init + last + ['/'] else init + last)
  {
  }

  lemma RenderBelowTop(d: Stack)
    requires d.Valid() && d.names != []
    ensures d.Pop(false).Valid() && d.Pop(true).Valid()
    ensures var init := RenderNames(d.names[..|d.names| - 1]);
      && Render(d.Pop(true)) == init
      && Render(d.Pop(false)) == (if |init| == 1 then ['/'] else init[..|init| - 1])
  {
    if |d.names| > 1 {
      var below := d.names[..|d.names| - 1];
      var front, name := RenderNames(below[..|below| - 1]), below[|below| - 1];
      var init := RenderNames(below);
      assert init == front + name + ['/'];
      assert init[..|init| - 1] == front + name;
    }
  }

  lemma PopRendered(d: Stack)
    requires d.Valid() && d.names != []
    ensures d.Pop(false).Valid() && d.Pop(true).Valid()
    ensures Cdup(Render(d)) == Render(d.Pop(false))
    ensures Parent(Render(d)) == Render(d.Pop(true))
  {
    var init, last := RenderNames(d.names[..|d.names| - 1]), d.names[|d.names| - 1];
    RenderTop(d);
    RenderBelowTop(d);
    CdupCuts(init, last, Render(d));
    ParentCuts(init, last, Render(d));
    hide Render, Cdup, Parent, RenderNames;
    var above := init[..|init| - 1];
    assert init == above + ['/'];
    assert above == [] || above[|above| - 1] != '/' by {
      NoDoubleSlash(d);
    }
  }

  lemma NoDoubleSlash(d: Stack)
    requires d.Valid() && d.names != []
    ensures var init := RenderNames(d.names[..|d.names| - 1]);
      |init| == 1 || init[|init| - 2] != '/'
  {
    if |d.names| > 1 {
      var below := d.names[..|d.names| - 1];
      var front, name := RenderNames(below[..|below| - 1]), below[|below| - 1];
      assert RenderNames(below) == front + name + ['/'];
      assert (front + name + ['/'])[|front| + |name| - 1] == name[|name| - 1];
    }
  }

  /** CDUP leaves the directory above without its final slash. */
  lemma CdupCuts(init: string, last: string, s: string)
    requires init != [] && init[|init| - 1] == '/' && last != [] && '/' !in last
    requires s == init + last || s == init + last + ['/']
    ensures Cdup(s) == if |init| == 1 then ['/'] else init[..|init| - 1]
  {
    var k := FindLastNotOf(s, '/');
    var top := |init| + |last| - 1;
    assert s[top] == last[|last| - 1] && s[top] != '/';
    assert k == top;
    var cut := Substr(s, 0, k);
    assert cut == init + last[..|last| - 1];
    assert cut == init[..|init| - 1] + ['/'] + last[..|last| - 1];
    FindLastAt(init[..|init| - 1], '/', last[..|last| - 1]);
    assert Substr(cut, 0, |init| - 1) == init[..|init| - 1];
  }

  /** CWD ".." leaves it with one. */
  lemma ParentCuts(init: string, last: string, s: string)
    requires Absolute(init) && init[|init| - 1] == '/' && last != [] && '/' !in last
    requires s == init + last || s == init + last + ['/']
    ensures Absolute(s) && Parent(s) == WithSlash(init[..|init| - 1])
  {
    assert s[0] == init[0] && s[|init|] == last[0];
    var bare := init + last;
    assert s[|s| - 1] == '/' ==> s[..|s| - 1] == bare;
    assert s[|init| + |last| - 1] == last[|last| - 1];
    assert bare == init[..|init| - 1] + ['/'] + last;
    FindLastAt(init[..|init| - 1], '/', last);
    assert bare[..|init| - 1] == init[..|init| - 1];
  }

  lemma PushWithSlash(d: Stack, name: string)
    requires d.Valid() && SimpleName(name) && d.slash
    ensures Stack(d.names + [name], true).Valid()
    ensures WithSlash(Render(d) + name) == Render(Stack(d.names + [name], true))
  {
    var s := Render(d) + name;
    assert s[|s| - 1] == name[|name| - 1];
    assert (d.names + [name])[..|d.names|] == d.names;
  }

  lemma GluedName(last: string, name: string)
    requires SimpleName(last) && SimpleName(name)
    ensures SimpleName(last + name)
  {
    assert (last + name)[0] == last[0] && (|last| == 1 ==> last == [last[0]]);
  }

  /** Without the final slash the new name only makes the last one longer. */
  lemma PushGlued(d: Stack, name: string)
    requires d.Valid() && SimpleName(name) && !d.slash
    ensures var front, last := d.names[..|d.names| - 1], d.names[|d.names| - 1];
      && Stack(front + [last + name], true).Valid()
      && WithSlash(Render(d) + name) == Render(Stack(front + [last + name], true))
  {
    var front, last := d.names[..|d.names| - 1], d.names[|d.names| - 1];
    var s := Render(d) + name;
    GluedName(last, name);
    assert s[|s| - 1] == name[|name| - 1];
    assert (front + [last + name])[..|front|] == front;
    assert s == RenderNames(front) + (last + name);
  }

  lemma PushRendered(d: Stack, name: string)
    requires d.Valid() && SimpleName(name)
    ensures MoveStack(d, Into(name, true)).Valid()
    ensures WithSlash(Render(d) + name) == Render(MoveStack(d, Into(name, true)))
  {
    hide Render, WithSlash, SimpleName;
    if d.slash {
      PushWithSlash(d, name);
    } else {
      PushGlued(d, name);
    }
  }

  lemma RenderedWithSlash(d: Stack)
    requires d.Valid()
    ensures Stack(d.names, true).Valid() && WithSlash(Render(d)) == Render(Stack(d.names, true))
  {
    if !d.slash {
      var last := d.names[|d.names| - 1];
      assert Render(d)[|Render(d)| - 1] == last[|last| - 1];
    }
  }

  lemma IntoRendered(d: Stack, name: string, present: bool)
    requires d.Valid() && SimpleName(name)
    ensures MoveStack(d, Into(name, present)).Valid()
    ensures MoveString(Render(d), Into(name, present)) == Render(MoveStack(d, Into(name, present)))
  {
    assert name[0] != '/';
    PushRendered(d, name);
    hide Render, Parent, WithSlash;
  }

  lemma ToRendered(d: Stack, target: Stack)
    requires d.Valid() && target.Valid()
    ensures MoveString(Render(d), To(target)) == Render(Stack(target.names, true))
  {
    RenderedWithSlash(target);
    assert Render(target)[0] == '/';
    hide Render, Parent, WithSlash;
  }

  lemma BackRendered(d: Stack)
    requires d.Valid()
    ensures d.Pop(true).Valid() && MoveString(Render(d), Back) == Render(d.Pop(true))
  {
    if d.names != [] {
      PopRendered(d);
    }
    assert ['.', '.'][0] != '/' && ['.', '.'] != ['.'];
    hide Parent, WithSlash;
  }

  /** One command on the string is one operation on the stack. */
  lemma MoveRendered(d: Stack, m: Move)
    requires d.Valid() && ValidMove(m)
    ensures MoveStack(d, m).Valid()
    ensures MoveString(Render(d), m) == Render(MoveStack(d, m))
  {
    match m {
      case Up =>
        if d.names != [] {
          PopRendered(d);
        }
      case Here =>
      case Back => BackRendered(d);
      case To(target) => ToRendered(d, target);
      case Into(name, present) => IntoRendered(d, name, present);
    }
  }

  // ----- whole runs -----

  ghost function RunString(s: string, moves: seq<Move>): string
    requires Absolute(s) && forall i :: 0 <= i < |moves| ==> ValidMove(moves[i])
    decreases |moves|
  {
    if moves == [] then s
    else
      StringStaysAbsolute(s, moves[0]);
      RunString(MoveString(s, moves[0]), moves[1..])
  }

  lemma StringStaysAbsolute(s: string, m: Move)
    requires Absolute(s) && ValidMove(m)
    ensures Absolute(MoveString(s, m))
  {
  }

  ghost function RunStack(d: Stack, moves: seq<Move>): Stack
    requires d.Valid() && forall i :: 0 <= i < |moves| ==> ValidMove(moves[i])
    decreases |moves|
  {
    if moves == [] then d
    else
      MoveRendered(d, moves[0]);
      RunStack(MoveStack(d, moves[0]), moves[1..])
  }

  /** Over every run of valid commands, the string is the stack's. */
  lemma {:induction false} RunRendered(d: Stack, moves: seq<Move>)
    requires d.Valid() && forall i :: 0 <= i < |moves| ==> ValidMove(moves[i])
    ensures RunStack(d, moves).Valid()
    ensures RunString(Render(d), moves) == Render(RunStack(d, moves))
    decreases |moves|
  {
    if moves != [] {
      MoveRendered(d, moves[0]);
      StringStaysAbsolute(Render(d), moves[0]);
      RunRendered(MoveStack(d, moves[0]), moves[1..]);
    }
  }

  /** A relative name is entered while the final slash is missing. */
  predicate Glues(d: Stack, m: Move) {
    m.Into? && m.present && !d.slash
  }

  ghost predicate NeverGlues(d: Stack, moves: seq<Move>)
    requires d.Valid() && forall i :: 0 <= i < |moves| ==> ValidMove(moves[i])
    decreases |moves|
  {
    moves == [] ||
    (!Glues(d, moves[0]) && (MoveRendered(d, moves[0]); NeverGlues(MoveStack(d, moves[0]), moves[1..])))
  }

  /** After every command of the run the stack holds what pushing, popping and replacing would give. */
  ghost predicate AlwaysIdeal(d: Stack, names: seq<string>, moves: seq<Move>)
    requires d.Valid() && forall i :: 0 <= i < |moves| ==> ValidMove(moves[i])
    decreases |moves|
  {
    d.names == names &&
    (moves == [] ||
     (MoveRendered(d, moves[0]); AlwaysIdeal(MoveStack(d, moves[0]), MoveIdeal(names, moves[0]), moves[1..])))
  }

  lemma MoveIsIdeal(d: Stack, m: Move)
    requires d.Valid() && ValidMove(m)
    ensures MoveStack(d, m).names == MoveIdeal(d.names, m) <==> !Glues(d, m)
  {
    if Glues(d, m) {
      assert |MoveStack(d, m).names| != |MoveIdeal(d.names, m)|;
    }
  }

  /**
   The directory is a stack of names throughout a run exactly when no name is entered after a CDUP left the
   slash off.
   */
  lemma {:induction false} RefinesStackOfNames(d: Stack, moves: seq<Move>)
    requires d.Valid() && forall i :: 0 <= i < |moves| ==> ValidMove(moves[i])
    ensures AlwaysIdeal(d, d.names, moves) <==> NeverGlues(d, moves)
    decreases |moves|
  {
    if moves != [] {
      MoveIsIdeal(d, moves[0]);
      MoveRendered(d, moves[0]);
      if !Glues(d, moves[0]) {
        RefinesStackOfNames(MoveStack(d, moves[0]), moves[1..]);
      } else {
        assert !AlwaysIdeal(MoveStack(d, moves[0]), MoveIdeal(d.names, moves[0]), moves[1..]);
      }
    }
  }
}
