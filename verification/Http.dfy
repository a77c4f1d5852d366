/**
 Parsing an HTTP request: the request line word by word, then header fields line by line up to a blank
 line, all taken off a `BinnaryData` buffer.
 */
module Http {
  import opened Basics
  import opened Text
  import opened BinData

  datatype RequestMethod = METHOD_GET | METHOD_POST | METHOD_HEAD

  /** The parsed request; `additions` is a multimap, whose order the source never uses. */
  datatype HTTPHeader = HTTPHeader(
    requestMethod: RequestMethod, requestedURI: string, host: string, userAgent: string,
    additions: multiset<(string, string)>)

  /** `NoDelimiter` marks input on which the source's search finds no delimiter and its result is undefined. */
  datatype Outcome = Parsed(header: HTTPHeader) | Unsupported | NoDelimiter

  function MethodOf(word: string): Option<RequestMethod> {
    var m := Lower(word);
    if m == "get" then Some(METHOD_GET)
    else if m == "post" then Some(METHOD_POST)
    else if m == "head" then Some(METHOD_HEAD)
    else None
  }

  /** A field as the parser keeps it: the name in lower case, the value trimmed. */
  type Pair = (string, string)

  function AddPair(h: HTTPHeader, p: Pair): HTTPHeader {
    if p.0 == "host" then h.(host := p.1)
    else if p.0 == "user-agent" then h.(userAgent := p.1)
    else h.(additions := h.additions + multiset{p})
  }

  function AddLine(h: HTTPHeader, line: string): HTTPHeader {
    var k := FindFirst(line, ':');
    if k == NPOS then h
    else AddPair(h, (Lower(Trim(Substr(line, 0, k))), Trim(Substr(line, k + 1, NPOS))))
  }

  /** The word is the method's, letter by letter in either case. */
  predicate Asks(word: string, kind: RequestMethod) {
    match kind
    case METHOD_GET => EitherCase(word, "get", "GET")
    case METHOD_POST => EitherCase(word, "post", "POST")
    case METHOD_HEAD => EitherCase(word, "head", "HEAD")
  }

  predicate AsksNothing(word: string) {
    !Asks(word, METHOD_GET) && !Asks(word, METHOD_POST) && !Asks(word, METHOD_HEAD)
  }

  lemma MethodTable(word: string)
    ensures forall kind :: MethodOf(word) == Some(kind) <==> Asks(word, kind)
    ensures MethodOf(word) == None <==> AsksNothing(word)
  {
    FoldsTo(word, "get", "GET");
    FoldsTo(word, "post", "POST");
    FoldsTo(word, "head", "HEAD");
    hide Lower, EitherCase;
    assert |"get"| == 3 && "post"[0] == 'p' && "head"[0] == 'h';
    forall kind
      ensures MethodOf(word) == Some(kind) <==> Asks(word, kind)
    {
      match kind {
        case METHOD_GET =>
        case METHOD_POST =>
        case METHOD_HEAD =>
      }
    }
  }

  // ----- parsing as a function of the unread text -----

  function ParseFields(rest: string, h: HTTPHeader): Outcome
    decreases |rest|
  {
    if '\n' !in rest then NoDelimiter
    else
      var n := FindFirst(rest, '\n');
      var line := Trim(CStr(rest[..n]));
      var h' := AddLine(h, line);
      if line == [] then Parsed(h') else ParseFields(rest[n + 1..], h')
  }

  function ParseVersion(rest: string, h: HTTPHeader): Outcome {
    if '\n' !in rest then NoDelimiter
    else ParseFields(rest[TokenLength(rest) + 1..], h)
  }

  function ParseURI(rest: string, m: RequestMethod): Outcome {
    if '\n' !in rest then NoDelimiter
    else
      var n := TokenLength(rest);
      ParseVersion(rest[n + 1..], HTTPHeader(m, CStr(rest[..n]), "", "", multiset{}))
  }

  function ParseRequest(text: string): Outcome {
    if '\n' !in text then NoDelimiter
    else
      var n := TokenLength(text);
      match MethodOf(CStr(text[..n]))
      case None => Unsupported
      case Some(m) => ParseURI(text[n + 1..], m)
  }

  // ----- the parser -----

  method ParseHeaderLine(header: HTTPHeader, line: string) returns (h: HTTPHeader)
    ensures h == AddLine(header, line)
  {
    hide Trim, Lower, FindFirst;
    h := header;
    var colon := FindFirst(line, ':');
    if colon != NPOS {
      var property := TrimInPlace(Substr(line, 0, colon));
      var value := TrimInPlace(Substr(line, colon + 1, NPOS));
      var name := ToLower(property);
      if name == "host" {
        h := h.(host := value);
      } else if name == "user-agent" {
        h := h.(userAgent := value);
      } else {
        h := h.(additions := h.additions + multiset{(name, value)});
      }
    }
  }

  /** The text unread before one turn of the loop, and what the turn makes of it. */
  ghost predicate OneTurn(rest: string, h: HTTPHeader, rest': string, h': HTTPHeader, last: bool) {
    && |rest'| < |rest|
    && ParseFields(rest, h) == (if last then Parsed(h') else ParseFields(rest', h'))
  }

  method ParseField(dat: BinnaryData, h: HTTPHeader) returns (h': HTTPHeader, last: bool)
    requires dat.Valid() && !ParseFields(dat.View().Rest(), h).NoDelimiter?
    modifies dat`pget
    ensures dat.Valid() && dat.View().bytes == old(dat.View()).bytes
    ensures OneTurn(old(dat.View()).Rest(), h, dat.View().Rest(), h', last)
  {
    ghost var rest: string := dat.View().Rest();
    var text := ParseLine(dat);
    var line := TrimInPlace(text);
    h' := ParseHeaderLine(h, line);
    last := |line| == 0;
    TurnTaken(rest, h, FindFirst(rest, '\n'), line);
  }

  lemma TurnTaken(rest: string, h: HTTPHeader, n: int, line: string)
    requires '\n' in rest && n == FindFirst(rest, '\n') && line == Trim(CStr(rest[..n]))
    ensures OneTurn(rest, h, rest[n + 1..], AddLine(h, line), line == [])
  {
    hide Trim, CStr, FindFirst, AddLine;
  }

  method ParseLine(dat: BinnaryData) returns (line: string)
    requires dat.Valid() && '\n' in dat.View().Rest()
    modifies dat`pget
    ensures dat.Valid() && dat.View().bytes == old(dat.View()).bytes
    ensures var rest: string := old(dat.View()).Rest(); var n := FindFirst(rest, '\n');
      line == CStr(rest[..n]) && dat.View().Rest() == rest[n + 1..]
  {
    hide CStr, FindFirst;
    ghost var rest: string := dat.View().Rest();
    ghost var n := FindFirst(rest, '\n');
    line := dat.GetLine();
    assert dat.View().Rest() == rest[n + 1..];
  }

  method ParseHeaders(dat: BinnaryData, start: HTTPHeader) returns (out: Outcome)
    requires dat.Valid() && !ParseFields(dat.View().Rest(), start).NoDelimiter?
    modifies dat`pget
    ensures dat.Valid() && dat.View().bytes == old(dat.View()).bytes
    ensures out == ParseFields(old(dat.View()).Rest(), start)
  {
    var header := start;
    ghost var all: string := dat.View().Rest();
    ghost var result := ParseFields(all, start);
    while true
      invariant dat.Valid() && dat.View().bytes == old(dat.View()).bytes
      invariant ParseFields(dat.View().Rest(), header) == result
      decreases |dat.View().Rest()|
    {
      var last;
      header, last := ParseField(dat, header);
      if last {
        return Parsed(header);
      }
    }
  }

  method ParseWord(dat: BinnaryData) returns (word: string)
    requires dat.Valid() && '\n' in dat.View().Rest()
    modifies dat`pget
    ensures dat.Valid() && dat.View().bytes == old(dat.View()).bytes
    ensures var rest: string := old(dat.View()).Rest(); var n := TokenLength(rest);
      word == CStr(rest[..n]) && dat.View().Rest() == rest[n + 1..]
  {
    hide CStr, TokenLength;
    ghost var rest: string := dat.View().Rest();
    ghost var n := TokenLength(rest);
    word := dat.GetToken();
    assert dat.View().Rest() == rest[n + 1..];
  }

  method ParseMethod(dat: BinnaryData) returns (kind: Option<RequestMethod>)
    requires dat.Valid() && !ParseRequest(dat.View().Rest()).NoDelimiter?
    modifies dat`pget
    ensures dat.Valid() && dat.View().bytes == old(dat.View()).bytes
    ensures kind.None? ==> ParseRequest(old(dat.View()).Rest()) == Unsupported
    ensures kind.Some? ==> ParseRequest(old(dat.View()).Rest()) == ParseURI(dat.View().Rest(), kind.value)
  {
    var word := ParseWord(dat);
    var m := ToLower(word);
    if m == "get" {
      return Some(METHOD_GET);
    } else if m == "post" {
      return Some(METHOD_POST);
    } else if m == "head" {
      return Some(METHOD_HEAD);
    }
    return None;
  }

  method ParseRequestLine(dat: BinnaryData) returns (header: Option<HTTPHeader>)
    requires dat.Valid() && !ParseRequest(dat.View().Rest()).NoDelimiter?
    modifies dat`pget
    ensures dat.Valid() && dat.View().bytes == old(dat.View()).bytes
    ensures header.None? ==> ParseRequest(old(dat.View()).Rest()) == Unsupported
    ensures header.Some? ==> ParseRequest(old(dat.View()).Rest()) == ParseFields(dat.View().Rest(), header.value)
  {
    hide ParseRequest, ParseURI, ParseVersion, ParseFields;
    var kind := ParseMethod(dat);
    if kind.None? {
      return None;
    }
    var h := ParseTarget(dat, kind.value);
    SkipVersion(dat, h);
    header := Some(h);
  }

  method ParseTarget(dat: BinnaryData, kind: RequestMethod) returns (h: HTTPHeader)
    requires dat.Valid() && !ParseURI(dat.View().Rest(), kind).NoDelimiter?
    modifies dat`pget
    ensures dat.Valid() && dat.View().bytes == old(dat.View()).bytes
    ensures ParseURI(old(dat.View()).Rest(), kind) == ParseVersion(dat.View().Rest(), h)
  {
    hide ParseVersion, CStr;
    var requestedFile := ParseWord(dat);
    h := HTTPHeader(kind, requestedFile, "", "", multiset{});
  }

  method SkipVersion(dat: BinnaryData, ghost h: HTTPHeader)
    requires dat.Valid() && !ParseVersion(dat.View().Rest(), h).NoDelimiter?
    modifies dat`pget
    ensures dat.Valid() && dat.View().bytes == old(dat.View()).bytes
    ensures ParseVersion(old(dat.View()).Rest(), h) == ParseFields(dat.View().Rest(), h)
  {
    hide ParseFields, CStr;
    var version := ParseWord(dat);
  }

  /** The parsing part of `processRecieve`, on any data for which the source is defined. */
  method ProcessReceive(data: seq<byte>) returns (out: Outcome)
    requires !ParseRequest(CStr(data)).NoDelimiter?
    ensures out == ParseRequest(CStr(data))
  {
    hide ParseFields, ParseRequest, CStr;
    var dat := new BinnaryData();
    dat.Write(CStr(data));
    assert dat.View().Rest() == CStr(data);
    var header := ParseRequestLine(dat);
    if header.None? {
      return Unsupported;
    }
    out := ParseHeaders(dat, header.value);
  }

  // ----- printing -----

  /** A header field: its name, its value, and the lines the value is continued on. */
  datatype Field = Field(name: string, value: string, folds: seq<string>)

  datatype Request = Request(verb: string, uri: string, version: string, fields: seq<Field>)

  /** A line that continues the field before it: it starts with a blank or a tab. */
  predicate IsFold(line: string) {
    OnOneLine(line) && line != [] && (line[0] == ' ' || line[0] == '\t')
  }

  predicate WellFormedField(f: Field) {
    && OnOneLine(f.name) && ':' !in f.name && OnOneLine(f.value)
    && forall i :: 0 <= i < |f.folds| ==> IsFold(f.folds[i])
  }

  /**
   A request line and header fields as in sections 5.1 and 4.2 of RFC 2616, folded or not.
   */
  predicate WellFormed(r: Request) {
    && OnOneLine(r.verb) && ' ' !in r.verb
    && OnOneLine(r.uri) && ' ' !in r.uri
    && OnOneLine(r.version) && ' ' !in r.version
    && forall i :: 0 <= i < |r.fields| ==> WellFormedField(r.fields[i])
  }

  function PrintLine(line: string): string {
    line + ['\r'] + ['\n']
  }

  function PrintFolds(folds: seq<string>): string {
    if folds == [] then [] else PrintLine(folds[0]) + PrintFolds(folds[1..])
  }

  function PrintFields(fields: seq<Field>): string {
    if fields == [] then ['\r'] + ['\n']
    else
      var f := fields[0];
      PrintLine(f.name + [':'] + f.value) + (PrintFolds(f.folds) + PrintFields(fields[1..]))
  }

  function Print(r: Request): string {
    r.verb + [' '] + (r.uri + [' '] + (r.version + ['\r'] + ['\n'] + PrintFields(r.fields)))
  }

  /** The value under the last pair of that name, if there is one. */
  function LastValue(pairs: seq<Pair>, name: string, default: string): string {
    if pairs == [] then default
    else
      var p := pairs[|pairs| - 1];
      if p.0 == name then p.1 else LastValue(pairs[..|pairs| - 1], name, default)
  }

  /** The pairs that are neither a host nor a user agent. */
  function Others(pairs: seq<Pair>): seq<Pair> {
    if pairs == [] then []
    else
      var p := pairs[|pairs| - 1];
      Others(pairs[..|pairs| - 1]) + (if p.0 == "host" || p.0 == "user-agent" then [] else [p])
  }

  function HeaderOf(kind: RequestMethod, uri: string, pairs: seq<Pair>): HTTPHeader {
    HTTPHeader(kind, uri, LastValue(pairs, "host", ""), LastValue(pairs, "user-agent", ""), multiset(Others(pairs)))
  }

  // ----- what the fields mean, and what the parser takes them for -----

  /** The value of a folded field (section 4.2 of RFC 2616): the white space around a fold counts as one blank. */
  function Unfolded(value: string, folds: seq<string>): string {
    if folds == [] then Trim(value)
    else WithBlank(Unfolded(value, folds[..|folds| - 1]), Trim(folds[|folds| - 1]))
  }

  function WithBlank(a: string, b: string): string {
    if b == [] then a else if a == [] then b else a + [' '] + b
  }

  function PairMeant(f: Field): Pair {
    (Lower(Trim(f.name)), Unfolded(f.value, f.folds))
  }

  function PairsMeant(fields: seq<Field>): (r: seq<Pair>) {
    if fields == [] then [] else [PairMeant(fields[0])] + PairsMeant(fields[1..])
  }

  /** What the request says. */
  function Meaning(r: Request, kind: RequestMethod): HTTPHeader {
    HeaderOf(kind, r.uri, PairsMeant(r.fields))
  }

  /** What one line on its own is taken for: a pair if it has a colon, otherwise nothing. */
  function LinePairs(line: string): seq<Pair> {
    var k := FindFirst(line, ':');
    if k == NPOS then [] else [(Lower(Trim(line[..k])), Trim(line[k + 1..]))]
  }

  /** A blank line among the continuation lines, which ends the headers. */
  predicate EndsHeaders(folds: seq<string>) {
    folds != [] && (AllSpace(folds[0]) || EndsHeaders(folds[1..]))
  }

  /** What continuation lines are taken for: a field each if they have a colon, up to the first blank one. */
  function FoldPairs(folds: seq<string>): seq<Pair> {
    if folds == [] || AllSpace(folds[0]) then [] else LinePairs(folds[0]) + FoldPairs(folds[1..])
  }

  function FirstLinePair(f: Field): Pair {
    (Lower(Trim(f.name)), Trim(f.value))
  }

  /** What the fields are taken for. */
  function PairsTaken(fields: seq<Field>): seq<Pair> {
    if fields == [] then []
    else
      var f := fields[0];
      [FirstLinePair(f)] + (FoldPairs(f.folds) + (if EndsHeaders(f.folds) then [] else PairsTaken(fields[1..])))
  }

  /** What the request is taken for. */
  function Taken(r: Request, kind: RequestMethod): HTTPHeader {
    HeaderOf(kind, r.uri, PairsTaken(r.fields))
  }

  // ----- parsing undoes printing -----

  /** White space in front of the name cut off, so that what is left starts the trimmed line. */
  lemma FrontOf(name: string) returns (lead: string, front: string)
    ensures name == lead + front && AllSpace(lead) && Trim(front) == Trim(name)
    ensures front != [] ==> !IsSpace(front[0])
  {
    hide Trim;
    var a, b := TrimParts(name);
    var m := Trim(name);
    if m == [] {
      lead, front := name, [];
    } else {
      lead, front := a, m + b;
      Regroup(a, m, b);
      TrimUnique([], m, b);
      assert [] + m == m;
    }
  }

  lemma BackOf(value: string) returns (back: string, trail: string)
    ensures value == back + trail && AllSpace(trail) && Trim(back) == Trim(value)
    ensures back != [] ==> !IsSpace(back[|back| - 1])
  {
    hide Trim;
    var a, b := TrimParts(value);
    var m := Trim(value);
    if m == [] {
      back, trail := [], value;
    } else {
      back, trail := a + m, b;
      TrimUnique(a, m, []);
      assert a + m + [] == a + m;
    }
  }

  lemma RegroupLine<T>(lead: seq<T>, front: seq<T>, colon: seq<T>, back: seq<T>, trail: seq<T>, end: seq<T>)
    ensures (lead + front) + colon + (back + trail) + end == lead + (front + colon + back) + (trail + end)
  {
    Regroup(lead, front, colon);
    Regroup(lead, front + colon, back + trail);
    Regroup(front + colon, back, trail);
    Regroup(lead, front + colon + back, trail);
    Regroup(lead + (front + colon + back), trail, end);
  }

  lemma FieldLineTrimmed(name: string, value: string) returns (front: string, back: string)
    requires ':' !in name
    ensures Trim(name + [':'] + value + ['\r']) == front + [':'] + back
    ensures ':' !in front && Trim(front) == Trim(name) && Trim(back) == Trim(value)
  {
    hide Trim;
    var lead, trail;
    lead, front := FrontOf(name);
    back, trail := BackOf(value);
    RegroupLine(lead, front, [':'], back, trail, ['\r']);
    TrimUnique(lead, front + [':'] + back, trail + ['\r']);
  }

  /** A line with a colon adds exactly its trimmed name and value. */
  lemma ColonLineParses(h: HTTPHeader, name: string, value: string)
    requires ':' !in name
    ensures Trim(name + [':'] + value + ['\r']) != []
    ensures AddLine(h, Trim(name + [':'] + value + ['\r'])) == AddPair(h, (Lower(Trim(name)), Trim(value)))
  {
    hide Trim, Lower, AddPair;
    var front, back := FieldLineTrimmed(name, value);
    FindFirstAt(front, ':', back);
    var line := front + [':'] + back;
    assert Substr(line, 0, |front|) == front && Substr(line, |front| + 1, NPOS) == back;
  }

  /** A line without one adds nothing. */
  lemma PlainLineParses(h: HTTPHeader, line: string)
    requires ':' !in line
    ensures AddLine(h, Trim(line + ['\r'])) == h
  {
    hide Trim;
    var a, b := TrimParts(line + ['\r']);
    assert forall c :: c in Trim(line + ['\r']) ==> c in line + ['\r'];
  }

  lemma BlankWithEnd(line: string)
    ensures Trim(line + ['\r']) == [] <==> AllSpace(line)
  {
    var all := line + ['\r'];
    assert AllSpace(line) ==> AllSpace(all);
    assert AllSpace(all) ==> forall i :: 0 <= i < |line| ==> line[i] == all[i];
    hide Trim, IsSpace;
  }

  lemma AtColon(line: string)
    requires ':' in line
    ensures var k := FindFirst(line, ':'); line == line[..k] + [':'] + line[k + 1..] && ':' !in line[..k]
  {
  }

  /** Any line adds what it is taken for on its own. */
  lemma LineAdds(h: HTTPHeader, line: string)
    ensures AddLine(h, Trim(line + ['\r'])) == AddAll(h, LinePairs(line))
  {
    hide Trim, Lower, AddPair, AddLine, FindFirst;
    if ':' in line {
      var k := FindFirst(line, ':');
      AtColon(line);
      ColonLineParses(h, line[..k], line[k + 1..]);
      AddAllOne(h, (Lower(Trim(line[..k])), Trim(line[k + 1..])));
    } else {
      PlainLineParses(h, line);
    }
  }

  lemma LineAt(line: string, rest: string)
    requires OnOneLine(line)
    ensures var s := line + ['\n'] + rest;
      '\n' in s && FindFirst(s, '\n') == |line| && CStr(s[..|line|]) == line && s[|line| + 1..] == rest
  {
    FindFirstAt(line, '\n', rest);
    var s := line + ['\n'] + rest;
    assert s[|line|] == '\n' && s[..|line|] == line;
  }

  function AddAll(h: HTTPHeader, pairs: seq<Pair>): HTTPHeader {
    if pairs == [] then h else AddPair(AddAll(h, pairs[..|pairs| - 1]), pairs[|pairs| - 1])
  }

  lemma {:induction false} AddAllTwice(h: HTTPHeader, a: seq<Pair>, b: seq<Pair>)
    ensures AddAll(h, a + b) == AddAll(AddAll(h, a), b)
  {
    hide AddPair;
    if b == [] {
      assert a + b == a;
    } else {
      assert (a + b)[..|a + b| - 1] == a + b[..|b| - 1];
      AddAllTwice(h, a, b[..|b| - 1]);
    }
  }

  lemma AddAllOne(h: HTTPHeader, p: Pair)
    ensures AddAll(h, [p]) == AddPair(h, p)
  {
    hide AddPair;
    assert [p][..0] == [];
  }

  lemma {:induction false} AddAllMeans(kind: RequestMethod, uri: string, pairs: seq<Pair>)
    ensures AddAll(HTTPHeader(kind, uri, "", "", multiset{}), pairs) == HeaderOf(kind, uri, pairs)
  {
    if pairs != [] {
      AddAllMeans(kind, uri, pairs[..|pairs| - 1]);
    }
  }

  lemma BlankLineEnds(body: string, h: HTTPHeader)
    ensures ParseFields(['\r'] + ['\n'] + body, h) == Parsed(h)
  {
    LineAt(['\r'], body);
    assert AllSpace(['\r']);
  }

  lemma LineParses(line: string, rest: string, h: HTTPHeader)
    requires OnOneLine(line)
    ensures ParseFields(PrintLine(line) + rest, h) ==
      if AllSpace(line) then Parsed(h) else ParseFields(rest, AddAll(h, LinePairs(line)))
  {
    var text := PrintLine(line) + rest;
    LineAt(line + ['\r'], rest);
    TurnTaken(text, h, |line| + 1, Trim(line + ['\r']));
    hide ParseFields, Trim, CStr, FindFirst, AddLine, LinePairs;
    BlankWithEnd(line);
    LineAdds(h, line);
    if AllSpace(line) {
      BlankAdds(h);
    }
  }

  lemma BlankAdds(h: HTTPHeader)
    ensures AddLine(h, []) == h
  {
  }

  /** Continuation lines are parsed line by line; a blank one among them ends the headers. */
  lemma {:induction false} FoldsParse(folds: seq<string>, rest: string, h: HTTPHeader)
    requires forall i :: 0 <= i < |folds| ==> IsFold(folds[i])
    ensures var h' := AddAll(h, FoldPairs(folds));
      ParseFields(PrintFolds(folds) + rest, h) == if EndsHeaders(folds) then Parsed(h') else ParseFields(rest, h')
  {
    hide ParseFields, PrintLine, AllSpace, LinePairs;
    if folds == [] {
      assert PrintFolds(folds) + rest == rest;
    } else {
      var line, tail := folds[0], folds[1..];
      Regroup(PrintLine(line), PrintFolds(tail), rest);
      LineParses(line, PrintFolds(tail) + rest, h);
      if !AllSpace(line) {
        FoldsParse(tail, rest, AddAll(h, LinePairs(line)));
        AddAllTwice(h, LinePairs(line), FoldPairs(tail));
      }
    }
  }

  lemma FirstLineIs(f: Field)
    requires ':' !in f.name
    ensures var line := f.name + [':'] + f.value; !AllSpace(line) && LinePairs(line) == [FirstLinePair(f)]
  {
    var line := f.name + [':'] + f.value;
    FindFirstAt(f.name, ':', f.value);
    assert line[|f.name|] == ':';
    hide FindFirst, Trim, Lower;
    assert line[..|f.name|] == f.name && line[|f.name| + 1..] == f.value;
  }

  lemma FirstLineParses(f: Field, rest: string, h: HTTPHeader)
    requires WellFormedField(f)
    ensures ParseFields(PrintLine(f.name + [':'] + f.value) + rest, h) ==
      ParseFields(rest, AddPair(h, FirstLinePair(f)))
  {
    hide ParseFields, AddPair, Trim, Lower, AllSpace, LinePairs, FirstLinePair, PrintLine, AddAll;
    FirstLineIs(f);
    LineParses(f.name + [':'] + f.value, rest, h);
    AddAllOne(h, FirstLinePair(f));
  }

  /** A field adds the pair of its first line and then those of its continuation lines. */
  lemma FieldParses(f: Field, rest: string, h: HTTPHeader)
    requires WellFormedField(f)
    ensures var h' := AddAll(AddPair(h, FirstLinePair(f)), FoldPairs(f.folds));
      ParseFields(PrintLine(f.name + [':'] + f.value) + (PrintFolds(f.folds) + rest), h) ==
        if EndsHeaders(f.folds) then Parsed(h') else ParseFields(rest, h')
  {
    hide ParseFields, PrintLine, PrintFolds, FoldPairs, EndsHeaders, AddPair, FirstLinePair, AddAll;
    FirstLineParses(f, PrintFolds(f.folds) + rest, h);
    FoldsParse(f.folds, rest, AddPair(h, FirstLinePair(f)));
  }

  lemma PairsOfFirst(h: HTTPHeader, first: Pair, folds: seq<Pair>, rest: seq<Pair>)
    ensures AddAll(h, [first] + (folds + rest)) == AddAll(AddAll(AddPair(h, first), folds), rest)
  {
    hide AddPair, AddAll;
    AddAllTwice(h, [first], folds + rest);
    AddAllOne(h, first);
    AddAllTwice(AddPair(h, first), folds, rest);
  }

  lemma {:induction false} FieldsParse(fields: seq<Field>, body: string, h: HTTPHeader)
    requires forall i :: 0 <= i < |fields| ==> WellFormedField(fields[i])
    ensures ParseFields(PrintFields(fields) + body, h) == Parsed(AddAll(h, PairsTaken(fields)))
    decreases |fields|
  {
    hide ParseFields, PrintLine, PrintFolds, FoldPairs, EndsHeaders, AddPair, FirstLinePair, AddAll, WellFormedField;
    if fields == [] {
      BlankLineEnds(body, h);
      NothingAdds(h);
    } else {
      var f, rest := fields[0], PrintFields(fields[1..]);
      var h' := AddAll(AddPair(h, FirstLinePair(f)), FoldPairs(f.folds));
      Regroup(PrintLine(f.name + [':'] + f.value), PrintFolds(f.folds) + rest, body);
      Regroup(PrintFolds(f.folds), rest, body);
      FieldParses(f, rest + body, h);
      FieldsParse(fields[1..], body, h');
      PairsOfFirst(h, FirstLinePair(f), FoldPairs(f.folds),
        if EndsHeaders(f.folds) then [] else PairsTaken(fields[1..]));
      NothingAdds(h');
    }
  }

  lemma NothingAdds(h: HTTPHeader)
    ensures AddAll(h, []) == h
  {
  }

  lemma VersionParses(version: string, rest: string, h: HTTPHeader)
    requires OnOneLine(version) && ' ' !in version
    ensures ParseVersion(version + ['\r'] + ['\n'] + rest, h) == ParseFields(rest, h)
  {
    TokenAt(version + ['\r'], '\n', rest);
  }

  lemma URIParses(uri: string, rest: string, m: RequestMethod)
    requires OnOneLine(uri) && ' ' !in uri && '\n' in rest
    ensures ParseURI(uri + [' '] + rest, m) == ParseVersion(rest, HTTPHeader(m, uri, "", "", multiset{}))
  {
    TokenAt(uri, ' ', rest);
  }

  lemma VerbParses(verb: string, rest: string)
    requires OnOneLine(verb) && ' ' !in verb && '\n' in rest
    ensures forall kind :: Asks(verb, kind) ==> ParseRequest(verb + [' '] + rest) == ParseURI(rest, kind)
    ensures AsksNothing(verb) ==> ParseRequest(verb + [' '] + rest) == Unsupported
  {
    TokenAt(verb, ' ', rest);
    MethodTable(verb);
    hide MethodOf, Asks, ParseURI, TokenLength, CStr;
  }

  lemma URIKeepsMethod(rest: string, kind: RequestMethod)
    ensures ParseURI(rest, kind) != Unsupported
    ensures ParseURI(rest, kind).Parsed? ==> ParseURI(rest, kind).header.requestMethod == kind
  {
    hide CStr, TokenLength, ParseFields;
    if '\n' in rest {
      var n := TokenLength(rest);
      var tail := rest[n + 1..];
      if '\n' in tail {
        FieldsKeepMethod(tail[TokenLength(tail) + 1..], HTTPHeader(kind, CStr(rest[..n]), "", "", multiset{}));
      }
    }
  }

  lemma {:induction false} FieldsKeepMethod(rest: string, h: HTTPHeader)
    ensures ParseFields(rest, h) != Unsupported
    ensures ParseFields(rest, h).Parsed? ==> ParseFields(rest, h).header.requestMethod == h.requestMethod
    decreases |rest|
  {
    hide CStr, FindFirst, Trim, AddLine;
    if '\n' in rest {
      var n := FindFirst(rest, '\n');
      var h' := AddLine(h, Trim(CStr(rest[..n])));
      LineKeepsMethod(h, Trim(CStr(rest[..n])));
      FieldsKeepMethod(rest[n + 1..], h');
    }
  }

  lemma LineKeepsMethod(h: HTTPHeader, line: string)
    ensures AddLine(h, line).requestMethod == h.requestMethod
  {
    hide Trim, Lower, FindFirst;
  }

  /** The first word of any text decides: it is the method of the request, or no method and the request is refused. */
  lemma FirstWordDecides(text: string)
    requires '\n' in text
    ensures var word, out := CStr(text[..TokenLength(text)]), ParseRequest(text);
      && (out == Unsupported <==> AsksNothing(word))
      && (out.Parsed? ==> Asks(word, out.header.requestMethod))
  {
    hide CStr, TokenLength, MethodOf, Asks, ParseURI;
    var n := TokenLength(text);
    var word := CStr(text[..n]);
    MethodTable(word);
    if MethodOf(word).Some? {
      URIKeepsMethod(text[n + 1..], MethodOf(word).value);
    }
  }

  lemma PrintedRequestParses(r: Request, kind: RequestMethod, body: string)
    requires WellFormed(r)
    ensures Asks(r.verb, kind) ==> ParseRequest(Print(r) + body) == Parsed(Taken(r, kind))
    ensures AsksNothing(r.verb) ==> ParseRequest(Print(r) + body) == Unsupported
  {
    hide Asks, ParseRequest, ParseURI, ParseVersion, ParseFields, PrintFields, PairsTaken, AddAll, HeaderOf;
    hide WellFormedField;
    var t3 := PrintFields(r.fields) + body;
    var t2 := r.version + ['\r'] + ['\n'] + t3;
    var t1 := r.uri + [' '] + t2;
    Regroup(r.version + ['\r'] + ['\n'], PrintFields(r.fields), body);
    Regroup(r.uri + [' '], r.version + ['\r'] + ['\n'] + PrintFields(r.fields), body);
    Regroup(r.verb + [' '], r.uri + [' '] + (r.version + ['\r'] + ['\n'] + PrintFields(r.fields)), body);
    assert t2[|r.version| + 1] == '\n' && t1[|r.uri| + 1..] == t2;
    VerbParses(r.verb, t1);
    URIParses(r.uri, t2, kind);
    VersionParses(r.version, t3, HTTPHeader(kind, r.uri, "", "", multiset{}));
    FieldsParse(r.fields, body, HTTPHeader(kind, r.uri, "", "", multiset{}));
    AddAllMeans(kind, r.uri, PairsTaken(r.fields));
  }

  lemma {:induction false} PrintFoldsHasNoNul(folds: seq<string>)
    requires forall i :: 0 <= i < |folds| ==> IsFold(folds[i])
    ensures NUL !in PrintFolds(folds)
  {
    if folds != [] {
      PrintFoldsHasNoNul(folds[1..]);
    }
  }

  lemma {:induction false} PrintFieldsHasNoNul(fields: seq<Field>)
    requires forall i :: 0 <= i < |fields| ==> WellFormedField(fields[i])
    ensures NUL !in PrintFields(fields)
  {
    if fields != [] {
      PrintFieldsHasNoNul(fields[1..]);
      PrintFoldsHasNoNul(fields[0].folds);
      hide PrintFolds;
    }
  }

  lemma CStrOfPrefix(a: string, b: string)
    requires NUL !in a
    ensures CStr(a + b) == a + CStr(b)
  {
    if NUL in b {
      var n := FindFirst(b, NUL);
      assert a + b == (a + b[..n]) + [NUL] + b[n + 1..];
      CStrStopsAtNul(a + b[..n], b[n + 1..]);
    }
  }

  /** Nothing is lost or torn by these fields' folds: only the last field has any, and they are blank. */
  predicate FoldsHarmless(fields: seq<Field>) {
    && (forall i, j :: 0 <= i < |fields| && 0 <= j < |fields[i].folds| ==> AllSpace(fields[i].folds[j]))
    && (forall i :: 0 <= i < |fields| - 1 ==> fields[i].folds == [])
  }

  /**
   For every well-formed request, whatever follows it in the data, the parser is defined: it refuses verbs
   that are no method, and otherwise finds method and URI, and every physical line of the header fields on
   its own up to the first blank one: the last host, the last user agent, and the multiset of all other lines
   with a colon. With harmless folds, and so with none, that is what the request says.
   */
  lemma ParseUndoesPrint(r: Request, kind: RequestMethod, body: string)
    requires WellFormed(r)
    ensures Asks(r.verb, kind) ==> ParseRequest(CStr(Print(r) + body)) == Parsed(Taken(r, kind))
    ensures AsksNothing(r.verb) ==> ParseRequest(CStr(Print(r) + body)) == Unsupported
    ensures FoldsHarmless(r.fields) ==> Taken(r, kind) == Meaning(r, kind)
  {
    PrintFieldsHasNoNul(r.fields);
    CStrOfPrefix(Print(r), body);
    PrintedRequestParses(r, kind, CStr(body));
    FoldsRecovered(r.fields);
    hide Asks, ParseRequest, PairsTaken, PairsMeant, Print, CStr, FoldsHarmless, HeaderOf;
  }

  // ----- when folded fields are recovered -----

  lemma UnfoldedGrows(value: string, folds: seq<string>)
    requires folds != []
    ensures var before, last := Unfolded(value, folds[..|folds| - 1]), folds[|folds| - 1];
      && |Unfolded(value, folds)| >= |before| && |Unfolded(value, folds)| >= |Trim(last)|
      && (AllSpace(last) ==> Unfolded(value, folds) == before)
      && (!AllSpace(last) ==> |Unfolded(value, folds)| > |before|)
  {
    hide Trim, AllSpace;
  }

  /** The value of a field is longer than its first line's exactly when a continuation line is not blank. */
  lemma {:induction false} UnfoldedLonger(value: string, folds: seq<string>)
    ensures |Unfolded(value, folds)| >= |Trim(value)|
    ensures (forall i :: 0 <= i < |folds| ==> AllSpace(folds[i])) ==> Unfolded(value, folds) == Trim(value)
    ensures (exists i :: 0 <= i < |folds| && !AllSpace(folds[i])) ==> |Unfolded(value, folds)| > |Trim(value)|
    ensures forall i :: 0 <= i < |folds| ==> |Unfolded(value, folds)| >= |Trim(folds[i])|
  {
    hide Trim, AllSpace;
    if folds != [] {
      UnfoldedGrows(value, folds);
      UnfoldedLonger(value, folds[..|folds| - 1]);
      hide Unfolded;
    }
  }

  lemma {:induction false} BlankFolds(folds: seq<string>)
    requires forall i :: 0 <= i < |folds| ==> AllSpace(folds[i])
    ensures FoldPairs(folds) == [] && (EndsHeaders(folds) <==> folds != [])
  {
  }

  /**
   The parser takes the fields for what they mean exactly when their folds are harmless. A fold that is not
   blank tears its field; a blank one takes all fields behind it.
   */
  lemma {:induction false} FoldsRecovered(fields: seq<Field>)
    ensures PairsTaken(fields) == PairsMeant(fields) <==> FoldsHarmless(fields)
    decreases |fields|
  {
    if fields != [] {
      hide Unfolded, Trim, AllSpace, Lower, FoldPairs, EndsHeaders;
      var f, tail := fields[0], fields[1..];
      UnfoldedLonger(f.value, f.folds);
      HarmlessFirst(fields);
      hide FoldsHarmless;
      if forall i :: 0 <= i < |f.folds| ==> AllSpace(f.folds[i]) {
        BlankFolds(f.folds);
        FoldsRecovered(tail);
        FirstRecovered(FirstLinePair(f), PairsTaken(tail), PairsMeant(tail));
      } else {
        assert PairsTaken(fields)[0] == FirstLinePair(f) && PairsMeant(fields)[0] == PairMeant(f);
      }
    }
  }

  lemma FirstRecovered<T>(first: T, taken: seq<T>, meant: seq<T>)
    ensures [first] + ([] + taken) == [first] + meant <==> taken == meant
    ensures [first] + ([] + []) == [first] + meant <==> meant == []
  {
    assert ([first] + ([] + taken))[1..] == taken && ([first] + meant)[1..] == meant;
    assert ([first] + ([] + []))[1..] == [];
  }

  lemma HarmlessFirst(fields: seq<Field>)
    requires fields != []
    ensures FoldsHarmless(fields) <==>
      && (forall j :: 0 <= j < |fields[0].folds| ==> AllSpace(fields[0].folds[j]))
      && (fields[0].folds != [] ==> |fields| == 1)
      && FoldsHarmless(fields[1..])
  {
    hide AllSpace;
    var tail := fields[1..];
    assert forall i :: 0 <= i < |tail| ==> tail[i] == fields[i + 1];
    assert forall i :: 1 <= i < |fields| ==> fields[i] == tail[i - 1];
  }

  /** A line's value is shorter than the line. */
  lemma LineValueShorter(line: string)
    ensures forall p :: p in LinePairs(line) ==> |p.1| < |Trim(line)|
  {
    if ':' in line {
      var k := FindFirst(line, ':');
      AtColon(line);
      var front, back := FieldLineTrimmed(line[..k], line[k + 1..]);
      TrimEnd(line);
      TrimShorter(back);
    }
    hide Trim, Lower, FindFirst;
  }

  lemma TrimEnd(line: string)
    ensures Trim(line + ['\r']) == Trim(line)
  {
    hide Trim;
    var a, b := TrimParts(line);
    var mid := Trim(line);
    Regroup(a + mid, b, ['\r']);
    assert AllSpace(b + ['\r']);
    TrimUnique(a, mid, b + ['\r']);
  }

  lemma TrimShorter(s: string)
    ensures |Trim(s)| <= |s|
  {
  }

  /** No pair found in continuation lines has a value as long as the unfolded one. */
  lemma {:induction false} FoldValuesShorter(folds: seq<string>, n: nat)
    requires forall i :: 0 <= i < |folds| ==> |Trim(folds[i])| <= n
    ensures forall p :: p in FoldPairs(folds) ==> |p.1| < n
  {
    hide Trim, LinePairs, AllSpace;
    if folds != [] {
      FoldValuesShorter(folds[1..], n);
      LineValueShorter(folds[0]);
    }
  }

  lemma {:induction false} LastValueIsOne(pairs: seq<Pair>, name: string, n: nat)
    requires n > 0 && forall p :: p in pairs ==> |p.1| < n
    ensures |LastValue(pairs, name, "")| < n
  {
    if pairs != [] {
      LastValueIsOne(pairs[..|pairs| - 1], name, n);
    }
  }

  lemma {:induction false} OthersAreSome(pairs: seq<Pair>)
    ensures forall p :: p in Others(pairs) ==> p in pairs
  {
    if pairs != [] {
      OthersAreSome(pairs[..|pairs| - 1]);
    }
  }

  /** One pair and its header: a header of pairs with shorter values only is another one. */
  lemma ShorterDiffers(kind: RequestMethod, uri: string, pairs: seq<Pair>, p: Pair)
    requires |p.1| > 0 && forall q :: q in pairs ==> |q.1| < |p.1|
    ensures HeaderOf(kind, uri, pairs) != HeaderOf(kind, uri, [p])
  {
    LastValueIsOne(pairs, "host", |p.1|);
    LastValueIsOne(pairs, "user-agent", |p.1|);
    OthersAreSome(pairs);
    OfOne(p);
    hide LastValue, Others;
    if p.0 != "host" && p.0 != "user-agent" {
      assert p !in Others(pairs);
      assert p in multiset(Others([p])) && p !in multiset(Others(pairs));
    }
  }

  lemma OfOne(p: Pair)
    ensures p.0 == "host" ==> LastValue([p], "host", "") == p.1
    ensures p.0 == "user-agent" ==> LastValue([p], "user-agent", "") == p.1
    ensures p.0 != "host" && p.0 != "user-agent" ==> Others([p]) == [p]
  {
    assert [p][..0] == [];
  }

  /** A single field is recovered in the header, exactly when all its continuation lines are blank. */
  lemma OneFieldRecovered(kind: RequestMethod, uri: string, f: Field)
    ensures HeaderOf(kind, uri, PairsTaken([f])) == HeaderOf(kind, uri, PairsMeant([f])) <==>
      forall i :: 0 <= i < |f.folds| ==> AllSpace(f.folds[i])
  {
    hide Trim, AllSpace, Unfolded, Lower, FoldPairs, EndsHeaders, HeaderOf;
    var meant, n := PairMeant(f), |Unfolded(f.value, f.folds)|;
    UnfoldedLonger(f.value, f.folds);
    OneFieldPairs(f);
    if forall i :: 0 <= i < |f.folds| ==> AllSpace(f.folds[i]) {
      BlankFolds(f.folds);
      assert [FirstLinePair(f)] + [] == [meant];
    } else {
      FoldValuesShorter(f.folds, n);
      ShorterDiffers(kind, uri, [FirstLinePair(f)] + FoldPairs(f.folds), meant);
    }
  }

  lemma OneFieldPairs(f: Field)
    ensures PairsTaken([f]) == [FirstLinePair(f)] + FoldPairs(f.folds)
    ensures PairsMeant([f]) == [PairMeant(f)]
  {
    assert [f][1..] == [] && FoldPairs(f.folds) + [] == FoldPairs(f.folds);
    hide FirstLinePair, PairMeant, FoldPairs;
  }

  const FOLDED := Field(['x'], [' ', 'a'], [[' ', 'b']])

  lemma TrimLetter(c: char)
    requires !IsSpace(c)
    ensures Trim([c]) == [c] && Trim([' ', c]) == [c] && !AllSpace([' ', c])
  {
    hide Trim;
    assert Trimmed([c]) && AllSpace([]) && AllSpace([' ']);
    assert !AllSpace([' ', c]) by {
      assert [' ', c][1] == c;
    }
    hide AllSpace, IsSpace, Trimmed;
    assert [] + [c] + [] == [c] && [' '] + [c] + [] == [' ', c];
    TrimUnique([], [c], []);
    TrimUnique([' '], [c], []);
  }

  lemma FoldedMeans()
    ensures PairMeant(FOLDED) == (['x'], ['a', ' ', 'b'])
    ensures FirstLinePair(FOLDED) == (['x'], ['a']) && FoldPairs(FOLDED.folds) == []
  {
    TrimLetter('x');
    TrimLetter('a');
    TrimLetter('b');
    hide Trim, AllSpace, IsSpace;
    assert Lower(['x']) == ['x'];
    hide Lower;
    var folds := FOLDED.folds;
    assert |folds| == 1 && folds[0] == [' ', 'b'] && folds[..0] == [] && folds[1..] == [];
    assert Unfolded([' ', 'a'], []) == ['a'];
    assert Unfolded([' ', 'a'], folds) == ['a', ' ', 'b'];
    assert ':' !in folds[0] && LinePairs(folds[0]) == [];
  }

  /** A field that says "a b" on two lines is taken for "a", whatever request it is the only field of. */
  lemma FoldedValueTorn(r: Request, kind: RequestMethod, body: string)
    requires r.fields == [FOLDED] && WellFormed(r.(fields := [])) && Asks(r.verb, kind)
    ensures WellFormed(r) && Meaning(r, kind).additions == multiset{(['x'], ['a', ' ', 'b'])}
    ensures var out := ParseRequest(CStr(Print(r) + body));
      out.Parsed? && out.header.additions == multiset{(['x'], ['a'])} && out.header != Meaning(r, kind)
  {
    hide Asks, ParseRequest, Print, CStr, FoldPairs, PairMeant, FirstLinePair, LastValue;
    assert WellFormedField(FOLDED);
    ParseUndoesPrint(r, kind, body);
    OneFieldPairs(FOLDED);
    FoldedMeans();
    OfOne((['x'], ['a']));
    OfOne((['x'], ['a', ' ', 'b']));
    hide Others;
    assert [FirstLinePair(FOLDED)] + [] == [(['x'], ['a'])];
    assert ['x'] != "host" && ['x'] != "user-agent";
  }

  // ----- where the parser is defined -----

  /** A line of the text, ended by '\n', that is blank once its NUL-terminated part is trimmed. */
  ghost predicate BlankLineAt(s: string, j: int, i: int) {
    && 0 <= j <= i < |s| && s[i] == '\n' && (forall k :: j <= k < i ==> s[k] != '\n')
    && (j > 0 ==> s[j - 1] == '\n')
    && AllSpace(CStr(s[j..i]))
  }

  ghost predicate HasBlankLine(s: string) {
    exists j, i :: BlankLineAt(s, j, i)
  }

  /** A line lies in a text where it lies in the part behind the first line, and the other way round. */
  lemma LineShifts(s: string, n: nat, j: int, i: int)
    requires n < |s| && s[n] == '\n' && 0 <= j <= i < |s| - n - 1
    ensures BlankLineAt(s[n + 1..], j, i) <==> BlankLineAt(s, j + n + 1, i + n + 1)
  {
    hide CStr, AllSpace;
    var tail, d := s[n + 1..], n + 1;
    assert tail[j..i] == s[j + d..i + d];
    assert tail[i] == s[i + d] && (j > 0 ==> tail[j - 1] == s[j + d - 1]);
    if BlankLineAt(tail, j, i) {
      assert forall k :: j + d <= k < i + d ==> s[k] == tail[k - d];
    }
  }

  lemma BehindFirstLine(s: string, n: nat, j: int, i: int)
    requires n < |s| && s[n] == '\n' && (forall k :: 0 <= k < n ==> s[k] != '\n') && !AllSpace(CStr(s[..n]))
    requires BlankLineAt(s, j, i)
    ensures j > n
  {
    hide CStr, AllSpace;
    assert s[0..n] == s[..n];
    assert j == 0 ==> i == n;
  }

  lemma BlankLineInTail(s: string, n: nat)
    requires n < |s| && s[n] == '\n' && (forall k :: 0 <= k < n ==> s[k] != '\n') && !AllSpace(CStr(s[..n]))
    ensures HasBlankLine(s) <==> HasBlankLine(s[n + 1..])
  {
    hide BlankLineAt, CStr, AllSpace;
    var tail := s[n + 1..];
    if j, i :| BlankLineAt(tail, j, i) {
      BlankLineBounds(tail, j, i);
      LineShifts(s, n, j, i);
    }
    if j, i :| BlankLineAt(s, j, i) {
      BlankLineBounds(s, j, i);
      BehindFirstLine(s, n, j, i);
      LineShifts(s, n, j - n - 1, i - n - 1);
    }
  }

  lemma BlankLineBounds(s: string, j: int, i: int)
    requires BlankLineAt(s, j, i)
    ensures 0 <= j <= i < |s|
  {
  }

  /** The header loop ends exactly on texts with a blank line; on any other it runs into the end of the data. */
  lemma {:induction false} HeadersEndAtBlankLine(rest: string, h: HTTPHeader)
    ensures ParseFields(rest, h).Parsed? <==> HasBlankLine(rest)
    ensures !ParseFields(rest, h).Parsed? ==> ParseFields(rest, h).NoDelimiter?
    decreases |rest|
  {
    if '\n' in rest {
      var n := FindFirst(rest, '\n');
      var line := Trim(CStr(rest[..n]));
      TurnTaken(rest, h, n, line);
      hide ParseFields, CStr, FindFirst, AddLine, Trim;
      if line == [] {
        assert rest[0..n] == rest[..n];
        assert BlankLineAt(rest, 0, n);
      } else {
        HeadersEndAtBlankLine(rest[n + 1..], AddLine(h, line));
        BlankLineInTail(rest, n);
      }
    }
  }

  function AfterToken(s: string): string
    requires '\n' in s
  {
    s[TokenLength(s) + 1..]
  }

  /**
   The text ends its request: a first word, and if it is a method that is served, two more words and then
   a blank line behind the third.
   */
  ghost predicate RequestEnds(text: string) {
    && '\n' in text
    && (!AsksNothing(CStr(text[..TokenLength(text)])) ==>
          var afterVerb := AfterToken(text);
          && '\n' in afterVerb
          && var afterURI := AfterToken(afterVerb);
          && '\n' in afterURI
          && HasBlankLine(AfterToken(afterURI)))
  }

  /** The whole parse runs into the end of the data exactly on texts that do not end their request. */
  lemma DefinedOnEndedRequests(text: string)
    ensures ParseRequest(text).NoDelimiter? <==> !RequestEnds(text)
  {
    hide ParseFields, HasBlankLine, CStr, TokenLength, MethodOf, AsksNothing;
    if '\n' in text {
      MethodTable(CStr(text[..TokenLength(text)]));
    }
    forall rest, h
      ensures ParseFields(rest, h).NoDelimiter? <==> !HasBlankLine(rest)
    {
      HeadersEndAtBlankLine(rest, h);
    }
  }
}
