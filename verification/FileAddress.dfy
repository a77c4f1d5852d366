/**
 The requested file of an HTTP request, split into directory, name and parameters.
 */
module FileAddress {
  import opened Basics
  import opened Text

  datatype Parts = Parts(path: string, fileName: string, params: string)

  /** The split the source makes: the last '/' of the whole text first, then the first '?' behind it. */
  function Split(file: string): Option<Parts> {
    var pos := FindLast(file, '/');
    if pos == NPOS then None else Some(SplitTail(file[..pos + 1], file[pos + 1..]))
  }

  function SplitTail(path: string, tail: string): Parts {
    var q := FindFirst(tail, '?');
    if q == NPOS then Parts(path, tail, "") else Parts(path, tail[..q], tail[q + 1..])
  }

  /** The target cut at its last '/'. */
  function SplitTarget(target: string, query: string): Option<Parts> {
    var pos := FindLast(target, '/');
    if pos == NPOS then None else Some(Parts(target[..pos + 1], target[pos + 1..], query))
  }

  /** The split of a URI (section 3.2 of RFC 2616): the query goes first, then the path is cut. */
  function SplitURI(file: string): Option<Parts> {
    var q := FindFirst(file, '?');
    if q == NPOS then SplitTarget(file, "") else SplitTarget(file[..q], file[q + 1..])
  }

  predicate SlashInQuery(file: string) {
    '?' in file && '/' in file[FindFirst(file, '?') + 1..]
  }

  /** The parts, put together again around a '?' if there was one to split at. */
  function Rejoined(p: Parts, query: bool): string {
    if query then p.path + (p.fileName + ['?'] + p.params) else p.path + p.fileName
  }

  /** The parts put together again are the file, and the path alone holds its slashes. */
  lemma SplitLosesNothing(file: string)
    requires Split(file).Some?
    ensures var p := Split(file).value;
      && file == Rejoined(p, '?' in file[|p.path|..])
      && p.path != [] && p.path[|p.path| - 1] == '/' && '/' !in p.fileName && '/' !in p.params
      && '?' !in p.fileName
  {
    var path, tail := CutAtLastSlash(file);
    TailLosesNothing(path, tail);
    hide Split, SplitTail, Rejoined;
  }

  lemma CutBehind(s: string, c: char, pos: nat)
    requires pos < |s| && s[pos] == c && forall i :: pos < i < |s| ==> s[i] != c
    ensures s[..pos + 1] + s[pos + 1..] == s && s[..pos + 1][pos] == c && c !in s[pos + 1..]
  {
  }

  lemma CutAtLastSlash(file: string) returns (path: string, tail: string)
    requires Split(file).Some?
    ensures path + tail == file && file[|path|..] == tail && '/' !in tail
    ensures path != [] && path[|path| - 1] == '/'
    ensures Split(file).value == SplitTail(path, tail)
  {
    hide FindLast, SplitTail;
    var pos := FindLast(file, '/');
    path, tail := file[..pos + 1], file[pos + 1..];
    assert Split(file) == Some(SplitTail(path, tail));
    hide Split;
    CutBehind(file, '/', pos);
  }

  lemma TailLosesNothing(path: string, tail: string)
    ensures SplitTail(path, tail).path == path
    ensures path + tail == Rejoined(SplitTail(path, tail), '?' in tail)
    ensures '/' !in tail ==> '/' !in SplitTail(path, tail).fileName && '/' !in SplitTail(path, tail).params
    ensures '?' !in SplitTail(path, tail).fileName
  {
    var q := FindFirst(tail, '?');
    hide FindFirst;
    if q != NPOS {
      assert tail == tail[..q] + ['?'] + tail[q + 1..];
    }
  }

  /** The last slash is behind the question mark, which so gets into the path. */
  lemma QueryGetsIntoPath(target: string, query: string)
    requires '/' in query
    ensures var file := target + ['?'] + query;
      Split(file).Some? && '?' in Split(file).value.path
  {
    var file, k := target + ['?'] + query, FindLast(query, '/');
    hide FindLast, FindFirst, SplitTail;
    var front, back := target + ['?'] + query[..k], query[k + 1..];
    assert file == front + ['/'] + back;
    FindLastAt(front, '/', back);
    TailLosesNothing(file[..|front| + 1], file[|front| + 1..]);
    assert file[..|front| + 1][|target|] == '?';
  }

  lemma PathHasNoQuery(target: string, query: string)
    requires '?' !in target && SplitURI(target + ['?'] + query).Some?
    ensures '?' !in SplitURI(target + ['?'] + query).value.path
  {
    hide SplitURI, FindLast;
    SplitURIOf(target, query);
  }

  lemma SlashBehindQuery(target: string, query: string)
    requires '?' !in target && '/' in query
    ensures var file := target + ['?'] + query; Split(file) != SplitURI(file)
  {
    hide Split, SplitURI;
    QueryGetsIntoPath(target, query);
    if SplitURI(target + ['?'] + query).Some? {
      PathHasNoQuery(target, query);
    }
  }

  lemma SplitURIOf(target: string, query: string)
    requires '?' !in target
    ensures SplitURI(target + ['?'] + query) == SplitTarget(target, query)
  {
    var file := target + ['?'] + query;
    FindFirstAt(target, '?', query);
    hide FindFirst, SplitTarget;
    assert file[..|target|] == target && file[|target| + 1..] == query;
  }

  lemma NoSlashAtAll(target: string, query: string)
    requires '/' !in target && '/' !in query
    ensures Split(target + ['?'] + query) == None
  {
    assert '/' !in target + ['?'] + query;
  }

  lemma SplitOf(target: string, query: string, pos: int)
    requires '?' !in target && '/' !in query && pos == FindLast(target, '/') && pos != NPOS
    ensures Split(target + ['?'] + query) == Some(Parts(target[..pos + 1], target[pos + 1..], query))
  {
    hide FindFirst, FindLast, SplitTail;
    LastSlashInTarget(target, query, pos);
    SplitAtQuery(target[..pos + 1], target[pos + 1..], query);
  }

  lemma NoSlashBehindQuery(target: string, query: string)
    requires '?' !in target && '/' !in query
    ensures var file := target + ['?'] + query; Split(file) == SplitURI(file)
  {
    hide FindFirst, FindLast, Split, SplitURI;
    SplitURIOf(target, query);
    var pos := FindLast(target, '/');
    if pos == NPOS {
      NoSlashAtAll(target, query);
    } else {
      SplitOf(target, query, pos);
    }
  }

  lemma SplitAtQuery(path: string, name: string, query: string)
    requires '?' !in name
    ensures SplitTail(path, name + ['?'] + query) == Parts(path, name, query)
  {
    FindFirstAt(name, '?', query);
    hide FindFirst;
    var tail := name + ['?'] + query;
    assert tail[..|name|] == name && tail[|name| + 1..] == query;
  }

  lemma LastSlashInTarget(target: string, query: string, pos: nat)
    requires '?' !in target && '/' !in query && pos < |target| && pos == FindLast(target, '/')
    ensures var file, name := target + ['?'] + query, target[pos + 1..];
      && FindLast(file, '/') == pos && '?' !in name
      && file[..pos + 1] == target[..pos + 1]
      && file[pos + 1..] == name + ['?'] + query
  {
    hide FindFirst, FindLast;
    var file, name := target + ['?'] + query, target[pos + 1..];
    assert forall k :: 0 <= k < |name| ==> name[k] == target[pos + 1 + k];
    assert file == target[..pos] + ['/'] + (name + ['?'] + query);
    FindLastAt(target[..pos], '/', name + ['?'] + query);
  }

  lemma CutAtQuery(file: string)
    requires '?' in file
    ensures var q := FindFirst(file, '?');
      '?' !in file[..q] && file == file[..q] + ['?'] + file[q + 1..]
  {
    hide FindFirst;
    var q := FindFirst(file, '?');
    CutAt(file, '?', q);
  }

  lemma CutAt(s: string, c: char, q: nat)
    requires q < |s| && s[q] == c && forall i :: 0 <= i < q ==> s[i] != c
    ensures c !in s[..q] && s == s[..q] + [c] + s[q + 1..]
  {
  }

  lemma NoQuery(file: string)
    requires '?' !in file
    ensures Split(file) == SplitURI(file)
  {
    hide FindFirst, FindLast;
    var pos := FindLast(file, '/');
    if pos != NPOS {
      assert '?' !in file[pos + 1..];
    }
  }

  /** The two splits agree exactly when the query holds no '/'. */
  lemma SplitsURIUnlessSlashInQuery(file: string)
    ensures Split(file) == SplitURI(file) <==> !SlashInQuery(file)
  {
    hide Split, SplitURI, FindFirst;
    if '?' !in file {
      NoQuery(file);
    } else {
      var q := FindFirst(file, '?');
      CutAtQuery(file);
      if '/' in file[q + 1..] {
        SlashBehindQuery(file[..q], file[q + 1..]);
      } else {
        NoSlashBehindQuery(file[..q], file[q + 1..]);
      }
    }
  }

  class FileAddress {
    var file: string
    var path: string
    var fileName: string
    var params: string
    var isValid: bool

    constructor (f: string)
      ensures file == f && isValid == Split(f).Some?
      ensures Parts(path, fileName, params) == if Split(f).Some? then Split(f).value else Parts("", "", "")
    {
      file, path, fileName, params, isValid := f, "", "", "", false;
      new;
      Parse();
    }

    /** Fills in the parts; without a '/' only the validity changes, and without a '?' the parameters stay. */
    method Parse()
      modifies this
      ensures file == old(file) && isValid == Split(file).Some?
      ensures !isValid ==> path == old(path) && fileName == old(fileName) && params == old(params)
      ensures isValid ==> path == Split(file).value.path && fileName == Split(file).value.fileName
      ensures isValid ==> params == if '?' in file[|path|..] then Split(file).value.params else old(params)
    {
      hide FindFirst, FindLast;
      var pos := FindLast(file, '/');
      if pos == NPOS {
        isValid := false;
        return;
      }
      var tail := Substr(file, pos + 1, NPOS);
      path := Substr(file, 0, pos + 1);
      assert Split(file) == Some(SplitTail(path, tail)) && file[|path|..] == tail;
      hide Split;
      pos := FindFirst(tail, '?');
      if pos == NPOS {
        fileName := tail;
      } else {
        params := Substr(tail, pos + 1, NPOS);
        fileName := Substr(tail, 0, pos);
      }
      isValid := true;
    }
  }
}
