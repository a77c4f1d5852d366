/**
 The string helpers shared by the protocol handlers: the library searches they rely on, and
 `lower` and `trim`, which each protocol library defines for itself.

 A position is an `int`; `NPOS` (the library's all-ones size) is -1, so that `NPOS + 1` is 0 as it is
 in 64-bit arithmetic, and any negative count given to `Substr` stands for a huge one.
 */
module Text {

  const NPOS: int := -1
  const NUL: char := '\0'

  // ----- searches -----

  /** The index of the first occurrence of `c`, or `NPOS`. */
  function FindFirst(s: string, c: char): (r: int)
    ensures NPOS <= r < |s|
    ensures r == NPOS <==> c !in s
    ensures r != NPOS ==> s[r] == c && forall i :: 0 <= i < r ==> s[i] != c
  {
    if s == [] then NPOS
    else if s[0] == c then 0
    else
      var r := FindFirst(s[1..], c);
      if r == NPOS then NPOS else r + 1
  }

  /** The index of the last occurrence of `c`, or `NPOS`. */
  function FindLast(s: string, c: char): (r: int)
    ensures NPOS <= r < |s|
    ensures r == NPOS <==> c !in s
    ensures r != NPOS ==> s[r] == c && forall i :: r < i < |s| ==> s[i] != c
  {
    if s == [] then NPOS
    else if s[|s| - 1] == c then |s| - 1
    else
      assert s == s[..|s| - 1] + [s[|s| - 1]];
      FindLast(s[..|s| - 1], c)
  }

  /** The index of the last character other than `c`, or `NPOS`. */
  function FindLastNotOf(s: string, c: char): (r: int)
    ensures NPOS <= r < |s|
    ensures r == NPOS <==> forall i :: 0 <= i < |s| ==> s[i] == c
    ensures r != NPOS ==> s[r] != c && forall i :: r < i < |s| ==> s[i] == c
  {
    if s == [] then NPOS
    else if s[|s| - 1] != c then |s| - 1
    else
      assert s == s[..|s| - 1] + [s[|s| - 1]];
      FindLastNotOf(s[..|s| - 1], c)
  }

  predicate OccursAt(s: string, pat: string, i: int) {
    0 <= i <= |s| - |pat| && s[i..i + |pat|] == pat
  }

  ghost predicate Occurs(s: string, pat: string) {
    exists i :: OccursAt(s, pat, i)
  }

  /** The first position where `pat` occurs, or `NPOS`. */
  function FindSub(s: string, pat: string): (r: int)
    ensures r == NPOS <==> !Occurs(s, pat)
    ensures r != NPOS ==> OccursAt(s, pat, r) && forall i :: 0 <= i < r ==> !OccursAt(s, pat, i)
  {
    FindSubFrom(s, pat, 0)
  }

  function FindSubFrom(s: string, pat: string, from: nat): (r: int)
    requires from <= |s| + 1
    ensures r == NPOS || from <= r
    ensures r == NPOS ==> forall i :: from <= i ==> !OccursAt(s, pat, i)
    ensures r != NPOS ==> OccursAt(s, pat, r) && forall i :: from <= i < r ==> !OccursAt(s, pat, i)
    decreases |s| + 1 - from
  {
    if from + |pat| > |s| then NPOS
    else if OccursAt(s, pat, from) then from
    else FindSubFrom(s, pat, from + 1)
  }

  /** `substr(pos, count)` for a position inside the string; the library throws for a larger one. */
  function Substr(s: string, pos: int, count: int): (r: string)
    requires 0 <= pos <= |s|
    ensures |r| == (if count < 0 || count > |s| - pos then |s| - pos else count)
    ensures r == s[pos..pos + |r|]
  {
    if count < 0 || count > |s| - pos then s[pos..] else s[pos..pos + count]
  }

  lemma FindFirstAt(a: string, c: char, b: string)
    requires c !in a
    ensures FindFirst(a + [c] + b, c) == |a|
  {
    var s := a + [c] + b;
    var n := FindFirst(s, c);
    assert s[|a|] == c;
  }

  lemma FindLastAt(a: string, c: char, b: string)
    requires c !in b
    ensures FindLast(a + [c] + b, c) == |a|
  {
    var s := a + [c] + b;
    var n := FindLast(s, c);
    assert s[|a|] == c;
  }

  // ----- C strings -----

  /** What a C string made from these bytes holds: everything before the first NUL. */
  function CStr(s: string): (r: string)
    ensures NUL !in r && r <= s
    ensures r == s <==> NUL !in s
  {
    var n := FindFirst(s, NUL);
    if n == NPOS then s else s[..n]
  }

  lemma CStrStopsAtNul(a: string, b: string)
    requires NUL !in a
    ensures CStr(a + [NUL] + b) == a
  {
    FindFirstAt(a, NUL, b);
    assert (a + [NUL] + b)[..|a|] == a;
  }

  // ----- lower -----

  function LowerChar(c: char): char {
    if 'A' <= c <= 'Z' then (c as int + 32) as char else c
  }

  function Lower(s: string): (r: string)
    ensures |r| == |s|
    ensures forall i :: 0 <= i < |s| ==> r[i] == LowerChar(s[i])
  {
    seq(|s|, i requires 0 <= i < |s| => LowerChar(s[i]))
  }

  /** The word, letter by letter in either case; `small` and `capital` spell it in the two cases. */
  predicate EitherCase(word: string, small: string, capital: string) {
    |word| == |small| == |capital| && forall i :: 0 <= i < |word| ==> word[i] == small[i] || word[i] == capital[i]
  }

  const SMALL_LETTERS := "abcdefghijklmnopqrstuvwxyz"
  const CAPITAL_LETTERS := "ABCDEFGHIJKLMNOPQRSTUVWXYZ"

  /** Two spellings of one word of letters. */
  predicate Spells(small: string, capital: string) {
    |small| == |capital| &&
    forall i :: 0 <= i < |small| ==> 'a' <= small[i] <= 'z' && small[i] as int == capital[i] as int + 32
  }

  /** A letter at a time: the capitals become the small letters, and nothing else changes. */
  lemma LowerLetters(c: char)
    ensures forall i :: 0 <= i < 26 ==> LowerChar(CAPITAL_LETTERS[i]) == SMALL_LETTERS[i]
    ensures c !in CAPITAL_LETTERS ==> LowerChar(c) == c
  {
    assert forall i :: 0 <= i < 26 ==> CAPITAL_LETTERS[i] as int == 65 + i && SMALL_LETTERS[i] as int == 97 + i;
    if 'A' <= c <= 'Z' {
      assert CAPITAL_LETTERS[c as int - 65] == c;
    }
  }

  /** A word folds to a small one exactly when it is that word in either case. */
  lemma FoldsTo(word: string, small: string, capital: string)
    requires Spells(small, capital)
    ensures Lower(word) == small <==> EitherCase(word, small, capital)
  {
    if Lower(word) == small {
      assert forall i :: 0 <= i < |word| ==> LowerChar(word[i]) == small[i];
    }
  }

  /** `lower`: copies its argument and folds the copy in place. */
  method ToLower(input: string) returns (out: string)
    ensures out == Lower(input)
  {
    out := input;
    for i := 0 to |input|
      invariant |out| == |input|
      invariant forall k :: 0 <= k < i ==> out[k] == LowerChar(input[k])
      invariant forall k :: i <= k < |input| ==> out[k] == input[k]
    {
      if 'A' <= out[i] <= 'Z' {
        out := out[i := (out[i] as int + 32) as char];
      }
    }
  }

  // ----- trim -----

  predicate IsSpace(c: char) {
    c == ' ' || c == '\r' || c == '\n' || c == '\t'
  }

  predicate AllSpace(s: string) {
    forall i :: 0 <= i < |s| ==> IsSpace(s[i])
  }

  /** Neither end of the string is white space. */
  predicate Trimmed(s: string) {
    s != [] ==> !IsSpace(s[0]) && !IsSpace(s[|s| - 1])
  }

  function FirstNotSpace(s: string): (r: int)
    ensures NPOS <= r < |s|
    ensures r == NPOS <==> AllSpace(s)
    ensures r != NPOS ==> !IsSpace(s[r]) && forall i :: 0 <= i < r ==> IsSpace(s[i])
  {
    if s == [] then NPOS
    else if !IsSpace(s[0]) then 0
    else
      assert s == [s[0]] + s[1..];
      var r := FirstNotSpace(s[1..]);
      if r == NPOS then NPOS else r + 1
  }

  function LastNotSpace(s: string): (r: int)
    ensures NPOS <= r < |s|
    ensures r == NPOS <==> AllSpace(s)
    ensures r != NPOS ==> !IsSpace(s[r]) && forall i :: r < i < |s| ==> IsSpace(s[i])
  {
    if s == [] then NPOS
    else if !IsSpace(s[|s| - 1]) then |s| - 1
    else
      assert s == s[..|s| - 1] + [s[|s| - 1]];
      LastNotSpace(s[..|s| - 1])
  }

  /** What is left of a string once the white space at its two ends is gone. */
  function Trim(s: string): (r: string)
    ensures Trimmed(r)
    ensures r == [] <==> AllSpace(s)
  {
    var first := FirstNotSpace(s);
    var last := LastNotSpace(s);
    if first == NPOS then [] else s[first..last + 1]
  }

  lemma Rejoin(s: string, i: nat, j: nat)
    requires i <= j <= |s|
    ensures s == s[..i] + s[i..j] + s[j..]
  {
  }

  /** Trimming only cuts white space off the two ends. */
  lemma TrimParts(s: string) returns (a: string, b: string)
    ensures s == a + Trim(s) + b && AllSpace(a) && AllSpace(b)
  {
    var first, last := FirstNotSpace(s), LastNotSpace(s);
    if first == NPOS {
      a, b := s, [];
    } else {
      a, b := s[..first], s[last + 1..];
      assert Trim(s) == s[first..last + 1];
      Rejoin(s, first, last + 1);
    }
  }

  /** Trimming is determined by what it promises: white space, a trimmed middle, white space. */
  lemma TrimUnique(a: string, mid: string, b: string)
    requires AllSpace(a) && AllSpace(b) && Trimmed(mid)
    ensures Trim(a + mid + b) == mid
  {
    var s := a + mid + b;
    var first, last := FirstNotSpace(s), LastNotSpace(s);
    if mid == [] {
      assert AllSpace(s);
    } else {
      assert s[|a|] == mid[0] && s[|a| + |mid| - 1] == mid[|mid| - 1];
      assert s[|a|..|a| + |mid|] == mid;
    }
  }

  const WHITE_SPACE := " \r\n\t"

  lemma SpaceCharacters(c: char)
    ensures IsSpace(c) <==> c in WHITE_SPACE
  {
    assert WHITE_SPACE[0] == ' ' && WHITE_SPACE[1] == '\r' && WHITE_SPACE[2] == '\n' && WHITE_SPACE[3] == '\t';
  }

  /** Exactly the blanks, tabulators and line ends around a text are trimmed. */
  lemma TrimsAround(a: string, mid: string, b: string)
    requires forall c :: c in a + b ==> c in WHITE_SPACE
    requires mid != [] ==> mid[0] !in WHITE_SPACE && mid[|mid| - 1] !in WHITE_SPACE
    ensures Trim(a + mid + b) == mid
  {
    hide Trim;
    forall i | 0 <= i < |a + b|
      ensures IsSpace((a + b)[i])
    {
      SpaceCharacters((a + b)[i]);
    }
    assert forall i :: 0 <= i < |a| ==> (a + b)[i] == a[i];
    assert forall i :: 0 <= i < |b| ==> (a + b)[|a| + i] == b[i];
    if mid != [] {
      SpaceCharacters(mid[0]);
      SpaceCharacters(mid[|mid| - 1]);
    }
    TrimUnique(a, mid, b);
  }

  lemma AlreadyTrimmed(s: string)
    requires Trimmed(s)
    ensures Trim(s) == s && forall back :: AllSpace(back) ==> Trim(s + back) == s
  {
    hide Trim;
    forall back | AllSpace(back)
      ensures Trim(s + back) == s
    {
      TrimUnique([], s, back);
      assert [] + s == s;
    }
    assert s + [] == s && AllSpace([]);
  }

  /** `trim`: erases at the front, then at the back, leaving early when nothing is left. */
  method TrimInPlace(input: string) returns (out: string)
    ensures out == Trim(input)
  {
    var pos := FirstNotSpace(input);
    if pos == NPOS {
      return [];  // the first erase takes everything, and the second search then finds nothing
    }
    out := input[pos..];
    ghost var start := pos;
    assert AllSpace(input[..start]);
    pos := LastNotSpace(out);
    assert !IsSpace(out[0]);
    assert AllSpace(out[pos + 1..]);
    assert out[pos + 1..] == input[start + pos + 1..];
    out := out[..pos + 1];
    assert out == input[start..start + pos + 1];
    SplitTrim(input, start, start + pos + 1);
  }

  lemma SplitTrim(s: string, i: nat, j: nat)
    requires i <= j <= |s|
    requires AllSpace(s[..i]) && AllSpace(s[j..]) && Trimmed(s[i..j])
    ensures Trim(s) == s[i..j]
  {
    assert s == s[..i] + s[i..j] + s[j..];
    TrimUnique(s[..i], s[i..j], s[j..]);
  }

  // ----- lists of strings -----

  function Concat(parts: seq<string>): string {
    if parts == [] then [] else parts[0] + Concat(parts[1..])
  }

  lemma {:induction false} ConcatAppend(a: seq<string>, b: seq<string>)
    ensures Concat(a + b) == Concat(a) + Concat(b)
  {
    if a == [] {
      assert a + b == b;
    } else {
      assert (a + b)[1..] == a[1..] + b;
      ConcatAppend(a[1..], b);
    }
  }
}
