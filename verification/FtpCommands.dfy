/**
 The command table of an FTP session, word by word.
 */
module FtpCommands {
  import opened Text
  import opened FtpSession

  /** How each command is spelled, in small letters and in capitals. */
  function Spelling(c: Command): (r: (string, string))
    requires c != UNKNOWN
  {
    match c
    case USER => ("user", "USER")
    case PASS => ("pass", "PASS")
    case CWD => ("cwd", "CWD")
    case PWD => ("pwd", "PWD")
    case CDUP => ("cdup", "CDUP")
    case MKD => ("mkd", "MKD")
    case RMD => ("rmd", "RMD")
    case PORT => ("port", "PORT")
    case PASV => ("pasv", "PASV")
    case TYPE => ("type", "TYPE")
    case QUIT => ("quit", "QUIT")
    case HELP => ("help", "HELP")
    case NOOP => ("noop", "NOOP")
    case SYST => ("syst", "SYST")
    case STOR => ("stor", "STOR")
    case RETR => ("retr", "RETR")
    case DELE => ("dele", "DELE")
    case LIST => ("list", "LIST")
  }

  /** The word is the command's, letter by letter in either case. */
  predicate Says(word: string, c: Command) {
    c != UNKNOWN && EitherCase(word, Spelling(c).0, Spelling(c).1)
  }

  lemma SpellingSpells(c: Command)
    requires c != UNKNOWN
    ensures Spells(Spelling(c).0, Spelling(c).1)
  {
  }

  lemma LoginWords(word: string)
    ensures var w := Lower(word);
      && (w == "user" ==> CommandOf(word) == USER)
      && (w == "pass" ==> CommandOf(word) == PASS)
      && (w == "cwd" ==> CommandOf(word) == CWD)
      && (w == "pwd" ==> CommandOf(word) == PWD)
  {
    hide Lower;
    var w := Lower(word);
    if w == "pass" {
      assert w[0] == 'p';
    }
    if w == "cwd" {
    }
    if w == "pwd" {
      assert w[0] == 'p';
    }
  }

  lemma DirWords(word: string)
    ensures var w := Lower(word);
      && (w == "cdup" ==> CommandOf(word) == CDUP)
      && (w == "mkd" ==> CommandOf(word) == MKD)
      && (w == "rmd" ==> CommandOf(word) == RMD)
      && (w == "port" ==> CommandOf(word) == PORT)
  {
    hide Lower;
    var w := Lower(word);
    if w == "cdup" {
      assert w[0] == 'c';
    }
    if w == "mkd" {
      assert w[0] == 'm';
    }
    if w == "rmd" {
      assert w[0] == 'r';
    }
    if w == "port" {
      assert w[0] == 'p' && w[1] == 'o';
    }
  }

  lemma SettingWords(word: string)
    ensures var w := Lower(word);
      && (w == "pasv" ==> CommandOf(word) == PASV)
      && (w == "type" ==> CommandOf(word) == TYPE)
      && (w == "quit" ==> CommandOf(word) == QUIT)
  {
    hide Lower;
    var w := Lower(word);
    if w == "pasv" {
      assert w[0] == 'p' && w[1] == 'a' && w[3] == 'v';
    }
    if w == "type" {
      assert w[0] == 't';
    }
    if w == "quit" {
      assert w[0] == 'q';
    }
  }

  lemma PlainWords(word: string)
    ensures var w := Lower(word);
      && (w == "help" ==> CommandOf(word) == HELP)
      && (w == "noop" ==> CommandOf(word) == NOOP)
      && (w == "syst" ==> CommandOf(word) == SYST)
  {
    hide Lower;
    var w := Lower(word);
    if w == "help" {
      assert w[0] == 'h';
    }
    if w == "noop" {
      assert w[0] == 'n';
    }
    if w == "syst" {
      assert w[0] == 's';
    }
  }

  lemma FileWords(word: string)
    ensures var w := Lower(word);
      && (w == "stor" ==> CommandOf(word) == STOR)
      && (w == "retr" ==> CommandOf(word) == RETR)
  {
    hide Lower;
    var w := Lower(word);
    if w == "stor" {
      assert w[0] == 's' && w[1] == 't';
    }
    if w == "retr" {
      assert w[0] == 'r';
    }
  }

  lemma ListWords(word: string)
    ensures var w := Lower(word);
      && (w == "dele" ==> CommandOf(word) == DELE)
      && (w == "list" ==> CommandOf(word) == LIST)
  {
    hide Lower;
    var w := Lower(word);
    if w == "dele" {
      assert w[0] == 'd';
    }
    if w == "list" {
      assert w[0] == 'l';
    }
  }

  lemma LowerSpelled(word: string)
    ensures var c := CommandOf(word);
      c in {USER, PASS, CWD, PWD, CDUP, MKD, RMD, PORT, PASV} ==> Lower(word) == Spelling(c).0
  {
    hide Lower;
  }

  lemma RestSpelled(word: string)
    ensures var c := CommandOf(word);
      c in {TYPE, QUIT, HELP, NOOP, SYST, STOR, RETR, DELE, LIST} ==> Lower(word) == Spelling(c).0
  {
    hide Lower;
  }

  lemma CommandSpelled(word: string)
    ensures CommandOf(word) != UNKNOWN ==> Lower(word) == Spelling(CommandOf(word)).0
  {
    hide Lower, Spelling, CommandOf;
    LowerSpelled(word);
    RestSpelled(word);
  }

  /** The table: a word is a command's exactly when it spells it, in any letter case. */
  lemma CommandTable(word: string, c: Command)
    requires c != UNKNOWN
    ensures CommandOf(word) == c <==> Says(word, c)
  {
    hide Lower, CommandOf, EitherCase, Spells;
    SpellingSpells(c);
    FoldsTo(word, Spelling(c).0, Spelling(c).1);
    CommandSpelled(word);
    LoginWords(word);
    DirWords(word);
    SettingWords(word);
    PlainWords(word);
    FileWords(word);
    ListWords(word);
  }

  /** A word that starts with a letter is dealt with at all; every command does. */
  lemma CommandsStartWithLetters(word: string, c: Command)
    requires Says(word, c)
    ensures word != [] && IsLetter(word[0])
  {
  }
}
