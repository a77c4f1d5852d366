/**
 Reading a buffer line by line: repeated `getline` takes the contents apart at their '\n's, and the
 pieces put together again are the contents.
 */
module Lines {
  import opened Basics
  import opened Text
  import opened BinData

  function Ended(line: string): string {
    line + ['\n']
  }

  /** The lines joined, each followed by '\n'. */
  function Joined(lines: seq<string>): string {
    if lines == [] then [] else Joined(lines[..|lines| - 1]) + Ended(lines[|lines| - 1])
  }

  /** Neither the separator nor a NUL, where the returned text would stop short. */
  predicate IsLine(s: string) {
    '\n' !in s && NUL !in s
  }

  predicate AreLines(lines: seq<string>) {
    forall i :: 0 <= i < |lines| ==> IsLine(lines[i])
  }

  /** The contents are lines only: empty, or ended by '\n', and free of NULs. */
  predicate LinesOnly(s: string) {
    NUL !in s && (s != [] ==> s[|s| - 1] == '\n')
  }

  /** The first line of a non-empty text, as `getline` returns it, and what is left after it. */
  lemma FirstLine(s: string, n: int)
    requires LinesOnly(s) && s != [] && n == FindFirst(s, '\n')
    ensures n != NPOS
    ensures IsLine(s[..n]) && CStr(s[..n]) == s[..n]
    ensures LinesOnly(s[n + 1..])
    ensures s == Ended(s[..n]) + s[n + 1..]
  {
    assert s[|s| - 1] == '\n';
    assert forall c :: c in s[..n] ==> c in s;
    assert forall c :: c in s[n + 1..] ==> c in s;
    assert s[n + 1..] != [] ==> s[n + 1..][|s| - n - 2] == '\n';
  }

  lemma OneMore(lines: seq<string>, line: string)
    ensures Joined(lines + [line]) == Joined(lines) + Ended(line)
    ensures AreLines(lines) && IsLine(line) ==> AreLines(lines + [line])
  {
    assert (lines + [line])[..|lines|] == lines;
  }

  /** There is only one way to take a text apart into lines. */
  lemma {:induction false} LinesUnique(a: seq<string>, b: seq<string>)
    requires AreLines(a) && AreLines(b) && Joined(a) == Joined(b)
    ensures a == b
  {
    if a == [] || b == [] {
      assert b != [] ==> |Joined(b)| > 0;
      assert a != [] ==> |Joined(a)| > 0;
    } else {
      var s, x, y := Joined(a), a[|a| - 1], b[|b| - 1];
      var a', b' := a[..|a| - 1], b[..|b| - 1];
      JoinedEnds(a');
      JoinedEnds(b');
      assert s == Joined(a') + Ended(x) == Joined(b') + Ended(y);
      SameLastLine(Joined(a'), x, Joined(b'), y);
      LinesUnique(a', b');
      assert a == a' + [x] && b == b' + [y];
    }
  }

  lemma JoinedEnds(lines: seq<string>)
    ensures lines != [] ==> Joined(lines) != [] && Joined(lines)[|Joined(lines)| - 1] == '\n'
  {
  }

  /** A last line ends where the separator before it is, so two ways to cut it off agree. */
  lemma SameLastLine(p: string, x: string, q: string, y: string)
    requires p + Ended(x) == q + Ended(y) && '\n' !in x && '\n' !in y
    requires (p != [] ==> p[|p| - 1] == '\n') && (q != [] ==> q[|q| - 1] == '\n')
    ensures p == q && x == y
  {
    var s := p + Ended(x);
    assert p == s[..|p|] && q == s[..|q|];
    assert x == s[|p|..|s| - 1] && y == s[|q|..|s| - 1];
  }

  /** One `getline` takes the first line and its separator off the unread contents. */
  method NextLine(b: BinnaryData) returns (line: string, ghost rest: seq<byte>)
    requires b.Valid() && LinesOnly(b.View().Rest()) && b.pget < b.usedLength
    modifies b`pget
    ensures b.Valid() && b.View().bytes == old(b.View()).bytes && b.pget > old(b.pget)
    ensures rest == b.View().Rest() && LinesOnly(rest) && IsLine(line)
    ensures old(b.View()).Rest() == Ended(line) + rest
  {
    ghost var s := b.View().Rest();
    ghost var n := FindFirst(s, '\n');
    FirstLine(s, n);
    line := b.GetLine();
    rest := s[n + 1..];
    assert b.View().Rest() == rest;
  }

  /** `getline` until the contents are used up: the only lines that joined give the contents back. */
  method ReadLines(b: BinnaryData) returns (lines: seq<string>)
    requires b.Valid() && LinesOnly(b.View().Rest())
    modifies b`pget
    ensures b.Valid() && b.View() == Buffer(old(b.View()).bytes, b.usedLength)
    ensures AreLines(lines) && Joined(lines) == old(b.View()).Rest()
  {
    lines := [];
    ghost var all, rest := b.View().Rest(), b.View().Rest();
    while b.pget < b.usedLength
      invariant b.Valid() && b.View().bytes == old(b.View()).bytes
      invariant b.View().Rest() == rest && LinesOnly(rest)
      invariant AreLines(lines) && Joined(lines) + rest == all
      decreases b.usedLength - b.pget
    {
      var line, tail := NextLine(b);
      OneMore(lines, line);
      Regroup(Joined(lines), Ended(line), tail);
      rest := tail;
      lines := lines + [line];
    }
  }
}
