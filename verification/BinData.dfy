/**
 `BinnaryData`, the growable byte buffer with separate read and write cursors.

 Pointers into the buffer are offsets. A buffer that was never allocated has an array of length 0.
 The allocator is assumed to leave room between two blocks, as one that keeps headers does.
 */
module BinData {
  import opened Basics
  import opened Text

  type byte = c: char | c as int < 256 witness NUL

  /** The buffer as a value: the bytes written so far and the read index. */
  datatype Buffer = Buffer(bytes: seq<byte>, index: nat)
  {
    function Rest(): seq<byte>
      requires index <= |bytes|
    {
      bytes[index..]
    }
  }

  /** How many bytes `>>` takes for a word: up to the first blank of the line, or the whole line. */
  function TokenLength(rest: string): (r: nat)
    requires '\n' in rest
    ensures r < |rest| && (rest[r] == ' ' || rest[r] == '\n')
    ensures forall i :: 0 <= i < r ==> rest[i] != ' ' && rest[i] != '\n'
  {
    var blank, line := FindFirst(rest, ' '), FindFirst(rest, '\n');
    if blank == NPOS || blank > line then line else blank
  }

  function Zeros(n: nat): (r: seq<byte>)
    ensures |r| == n && forall i :: 0 <= i < n ==> r[i] == NUL
  {
    seq(n, _ => NUL)
  }

  /** The contents after a `reserve`: unchanged, unless the size is one that cuts into them. */
  function Reserved(b: Buffer, len: nat): Buffer {
    if len < |b.bytes| then b.(bytes := b.bytes[..len] + Zeros(|b.bytes| - len)) else b
  }

  /** Nothing leaves or moves; a byte changes only from `len` on, and there it becomes a NUL. */
  lemma ReservedAt(b: Buffer, len: nat)
    ensures |Reserved(b, len).bytes| == |b.bytes| && Reserved(b, len).index == b.index
    ensures forall i :: 0 <= i < |b.bytes| ==> Reserved(b, len).bytes[i] == if i < len then b.bytes[i] else '\0'
  {
    if len < |b.bytes| {
      assert Reserved(b, len).bytes == b.bytes[..len] + Zeros(|b.bytes| - len);
    }
  }

  predicate OnOneLine(s: string) {
    '\n' !in s && NUL !in s
  }

  lemma TokenAt(word: string, sep: char, rest: string)
    requires OnOneLine(word) && ' ' !in word && (sep == ' ' || sep == '\n')
    requires sep == '\n' || '\n' in rest
    ensures var s := word + [sep] + rest;
      '\n' in s && TokenLength(s) == |word| && CStr(s[..|word|]) == word && s[|word| + 1..] == rest
  {
    var s := word + [sep] + rest;
    assert s[|word|] == sep;
    assert s[..|word|] == word;
  }

  class BinnaryData {
    var data: array<byte>
    var usedLength: nat
    var maxLength: nat
    var pget: nat
    var pput: nat

    /** Memory behind the contents is never anything but zeros. */
    ghost predicate Cleared()
      reads this, data
    {
      forall i :: usedLength <= i < data.Length ==> data[i] == NUL
    }

    ghost predicate Valid()
      reads this, data
    {
      pget <= pput == usedLength <= maxLength == data.Length && Cleared()
    }

    ghost function View(): Buffer
      reads this, data
      requires Valid()
    {
      Buffer(data[..usedLength], pget)
    }

    constructor ()
      ensures Valid() && fresh(data)
      ensures View() == Buffer([], 0) && maxLength == 0
    {
      data := new byte[0];
      usedLength, maxLength, pget, pput := 0, 0, 0, 0;
    }

    /**
     Reallocates to a larger size, or clears everything from a smaller one on. With contents both cursors
     move along. Without, nothing is copied, the old block stays allocated, and the guards put both cursors
     at the start of the new one: pointers into another block are never inside it.
     */
    method Reserve(len: nat)
      requires Valid()
      modifies this, data
      ensures Valid() && (data == old(data) || fresh(data))
      ensures maxLength == old(if len > maxLength then len else maxLength)
      ensures usedLength == old(usedLength) && View() == Reserved(old(View()), len)
    {
      if maxLength == len {
        return;
      }
      if maxLength > len {
        Clear(len);
        return;
      }
      var buffer := new byte[len](_ => NUL);
      var get, put := 0, 0;
      if usedLength > 0 {
        forall i | 0 <= i < usedLength {
          buffer[i] := data[i];
        }
        get, put := pget, pput;
      }
      assert buffer[..usedLength] == data[..usedLength];
      data, maxLength, pget, pput := buffer, len, get, put;
    }

    /** The clearing of everything from `len` on. */
    method Clear(len: nat)
      requires Valid() && len < maxLength
      modifies data
      ensures Valid() && View() == Reserved(old(View()), len)
    {
      forall i | len <= i < maxLength {
        data[i] := NUL;
      }
      assert data[..usedLength] == Reserved(old(View()), len).bytes;
    }

    method Grow(more: nat)
      requires Valid()
      modifies this, data
      ensures Valid() && (data == old(data) || fresh(data))
      ensures maxLength == old(maxLength) + more && usedLength == old(usedLength) && View() == old(View())
    {
      Reserve(maxLength + more);
    }

    /** The untyped write; it grows by the whole amount as soon as the free space does not hold it. */
    method Write(src: seq<byte>)
      requires Valid()
      modifies this, data
      ensures Valid() && (data == old(data) || fresh(data))
      ensures View() == Buffer(old(View()).bytes + src, old(pget))
      ensures maxLength == old(maxLength + (if usedLength + |src| > maxLength then |src| else 0))
    {
      var num := |src|;
      if num == 0 {
        return;
      }
      if num + usedLength > maxLength {
        Grow(num);
      }
      Store(src);
    }

    /** The typed write: its size test compares with the used length, so it grows every time. */
    method WriteTyped(image: seq<byte>)
      requires Valid() && |image| > 0
      modifies this, data
      ensures Valid() && (data == old(data) || fresh(data))
      ensures View() == Buffer(old(View()).bytes + image, old(pget))
      ensures maxLength == old(maxLength) + |image|
    {
      if pput + |image| > usedLength {
        Grow(pput + |image| - usedLength);
      }
      Store(image);
    }

    method Put(dat: byte)
      requires Valid()
      modifies this, data
      ensures Valid() && (data == old(data) || fresh(data))
      ensures View() == Buffer(old(View()).bytes + [dat], old(pget))
      ensures maxLength == old(maxLength) + 1
    {
      WriteTyped([dat]);
    }

    /** The copy both writes end in. */
    method Store(src: seq<byte>)
      requires Valid() && usedLength + |src| <= maxLength
      modifies this`usedLength, this`pput, data
      ensures Valid()
      ensures View() == Buffer(old(View()).bytes + src, old(pget))
    {
      forall i | 0 <= i < |src| {
        data[pput + i] := src[i];
      }
      assert data[..usedLength + |src|] == old(data[..usedLength]) + src;
      usedLength := usedLength + |src|;
      pput := pput + |src|;
    }

    /** The typed read, for a read that stays inside what was written. */
    method ReadTyped(size: nat) returns (image: seq<byte>)
      requires Valid() && pget + size <= usedLength
      modifies this`pget
      ensures Valid() && |image| == size
      ensures View() == Buffer(old(View()).bytes, old(pget) + size)
      ensures image == old(View()).Rest()[..size]
    {
      image := data[pget..pget + size];
      assert image == data[..usedLength][pget..][..size];
      pget := pget + size;
    }

    /** One byte; at the end of the contents, where it is a NUL, the cursor stays where it is. */
    method Get() returns (g: byte)
      requires Valid() && pget < maxLength
      modifies this`pget
      ensures Valid() && g == (if old(pget) < usedLength then View().bytes[old(pget)] else NUL)
      ensures View() == old(Buffer(View().bytes, if pget == usedLength then usedLength else pget + 1))
    {
      g := data[pget];
      pget := if pget == usedLength then usedLength else pget + 1;
    }

    method Unget()
      requires Valid()
      modifies this`pget
      ensures Valid()
      ensures View() == old(Buffer(View().bytes, if pget > 0 then pget - 1 else usedLength))
    {
      pget := if pget > 0 then pget - 1 else usedLength;
    }

    /** Copies up to `num` bytes; the value returned is computed after the cursor has moved. */
    method ReadSome(num: nat) returns (dest: seq<byte>, ret: nat)
      requires Valid() && maxLength > 0
      modifies this`pget
      ensures Valid()
      ensures dest == old(View()).Rest()[..Least(usedLength - old(pget), num)]
      ensures View() == Buffer(old(View()).bytes, old(pget) + |dest|)
      ensures ret == Least(usedLength - pget, num)
    {
      if usedLength == 0 {
        return [], 0;
      }
      var n := Least(usedLength - pget, num);
      dest := data[pget..pget + n];
      assert dest == data[..usedLength][pget..][..n];
      pget := pget + n;
      ret := Least(usedLength - pget, num);
    }

    /** The distance from the read cursor to the next `ch`, or `NPOS`. */
    method Find(ch: byte) returns (r: int)
      requires Valid()
      ensures r == FindFirst(View().Rest(), ch)
    {
      for i := 0 to usedLength - pget
        invariant forall k :: 0 <= k < i ==> View().Rest()[k] != ch
      {
        if data[pget + i] == ch {
          assert View().Rest()[i] == ch;
          return i;
        }
      }
      return NPOS;
    }

    /**
     Reads a line and steps over its '\n'; the text ends at a NUL, the cursor does not. The step over a
     '\r' is never taken: the cursor is at the '\n' that was searched for.
     */
    method GetLine() returns (line: string)
      requires Valid() && '\n' in View().Rest()
      modifies this`pget
      ensures Valid()
      ensures var rest := old(View()).Rest(); var n := FindFirst(rest, '\n');
        line == CStr(rest[..n]) && View() == Buffer(old(View()).bytes, old(pget) + n + 1)
    {
      var pos := FindLineEnd();
      ghost var before := View();
      var stream, _ := ReadSome(pos);
      assert pget == before.index + pos;
      assert data[pget] == '\n' by {
        assert View().bytes[pget] == before.bytes[pget];
      }
      assert stream == before.Rest()[..pos];
      if data[pget] == '\r' {
        assert false;
      }
      if data[pget] == '\n' {
        pget := pget + 1;
      }
      line := CStr(stream);
    }

    /** Where the line ends. The test for a '\r' looks at the '\n' that was just found, so it never holds. */
    method FindLineEnd() returns (pos: nat)
      requires Valid() && '\n' in View().Rest()
      ensures pos == FindFirst(View().Rest(), '\n')
      ensures pget + pos < usedLength && data[pget + pos] == '\n'
    {
      ghost var rest: string := View().Rest();
      pos := Find('\n');
      assert data[pget + pos] == rest[pos];
      if data[pget + pos] == '\r' {
        assert false;
      }
    }

    /** `>>` into a string: a word up to a blank or the end of the line, and the separator after it. */
    method GetToken() returns (word: string)
      requires Valid() && '\n' in View().Rest()
      modifies this`pget
      ensures Valid()
      ensures var rest := old(View()).Rest(); var n := TokenLength(rest);
        word == CStr(rest[..n]) && View() == Buffer(old(View()).bytes, old(pget) + n + 1)
    {
      hide CStr, TokenLength;
      var pos := FindToken();
      var stream, _ := ReadSome(pos);
      pget := pget + 1;
      word := CStr(stream);
    }

    /** The two searches that decide where a word ends. */
    method FindToken() returns (pos: nat)
      requires Valid() && '\n' in View().Rest()
      ensures pos == TokenLength(View().Rest())
    {
      ghost var rest: string := View().Rest();
      var blank := Find(' ');
      var endline := FindLineEnd();
      pos := if blank == NPOS || blank > endline then endline else blank;
    }
  }

  // ----- any run refines the byte sequence -----

  datatype BufferOp =
    | Reserve(len: nat) | Grow(more: nat)
    | Write(src: seq<byte>) | WriteTyped(image: seq<byte>) | Put(dat: byte)
    | ReadTyped(size: nat) | Get | Unget | ReadSome(num: nat) | GetLine | GetToken
  {
    predicate Reads() {
      ReadTyped? || Get? || Unget? || ReadSome? || GetLine? || GetToken?
    }
  }

  /** The plain byte sequence with an index, and how much memory the buffer has by now. */
  datatype Machine = Machine(buf: Buffer, capacity: nat)
  {
    predicate Valid() {
      buf.index <= |buf.bytes| <= capacity
    }
  }

  const NEW_MACHINE := Machine(Buffer([], 0), 0)

  /** The calls the class gives a meaning to: reads inside the memory, and delimiters that are there. */
  predicate Legal(m: Machine, op: BufferOp)
    requires m.Valid()
  {
    match op
    case WriteTyped(image) => |image| > 0
    case ReadTyped(size) => m.buf.index + size <= |m.buf.bytes|
    case Get => m.buf.index < m.capacity
    case ReadSome(_) => m.capacity > 0
    case GetLine => '\n' in m.buf.Rest()
    case GetToken => '\n' in m.buf.Rest()
    case _ => true
  }

  /** What a read does to the index. */
  function IndexAfter(b: Buffer, op: BufferOp): (r: nat)
    requires b.index <= |b.bytes| && op.Reads()
    requires op.ReadTyped? ==> b.index + op.size <= |b.bytes|
    requires op.GetLine? || op.GetToken? ==> '\n' in b.Rest()
    ensures r <= |b.bytes|
  {
    match op
    case ReadTyped(size) => b.index + size
    case Get => if b.index == |b.bytes| then b.index else b.index + 1
    case Unget => if b.index > 0 then b.index - 1 else |b.bytes|
    case ReadSome(num) => b.index + Least(|b.bytes| - b.index, num)
    case GetLine => b.index + FindFirst(b.Rest(), '\n') + 1
    case GetToken => b.index + TokenLength(b.Rest()) + 1
  }

  /** What a call that is no read does to contents and memory. */
  function Written(m: Machine, op: BufferOp): (r: Machine)
    requires m.Valid() && !op.Reads()
    ensures r.Valid() && r.buf.index == m.buf.index && |r.buf.bytes| >= |m.buf.bytes| && r.capacity >= m.capacity
  {
    var Machine(b, capacity) := m;
    match op
    case Reserve(len) => Machine(Reserved(b, len), if len > capacity then len else capacity)
    case Grow(more) => Machine(b, capacity + more)
    case Write(src) =>
      Machine(b.(bytes := b.bytes + src), capacity + (if |b.bytes| + |src| > capacity then |src| else 0))
    case WriteTyped(image) => Machine(b.(bytes := b.bytes + image), capacity + |image|)
    case Put(dat) => Machine(b.(bytes := b.bytes + [dat]), capacity + 1)
  }

  function Next(m: Machine, op: BufferOp): (r: Machine)
    requires m.Valid() && Legal(m, op)
    ensures r.Valid()
  {
    if op.Reads() then m.(buf := m.buf.(index := IndexAfter(m.buf, op))) else Written(m, op)
  }

  /** What a read returns: the bytes it steps over, without the separator for a line or a word. */
  function Output(m: Machine, op: BufferOp): string
    requires m.Valid() && Legal(m, op)
  {
    var b := m.buf;
    match op
    case ReadTyped(size) => b.Rest()[..size]
    case Get => if b.index < |b.bytes| then [b.bytes[b.index]] else [NUL]
    case ReadSome(num) => b.Rest()[..Least(|b.bytes| - b.index, num)]
    case GetLine => CStr(b.Rest()[..FindFirst(b.Rest(), '\n')])
    case GetToken => CStr(b.Rest()[..TokenLength(b.Rest())])
    case _ => []
  }

  predicate AllLegal(m: Machine, ops: seq<BufferOp>)
    requires m.Valid()
    decreases |ops|
  {
    ops == [] || (Legal(m, ops[0]) && AllLegal(Next(m, ops[0]), ops[1..]))
  }

  function Outputs(m: Machine, ops: seq<BufferOp>): seq<string>
    requires m.Valid() && AllLegal(m, ops)
    decreases |ops|
  {
    if ops == [] then [] else [Output(m, ops[0])] + Outputs(Next(m, ops[0]), ops[1..])
  }

  function Final(m: Machine, ops: seq<BufferOp>): (r: Machine)
    requires m.Valid() && AllLegal(m, ops)
    ensures r.Valid()
    decreases |ops|
  {
    if ops == [] then m else Final(Next(m, ops[0]), ops[1..])
  }

  ghost function StateOf(b: BinnaryData): (m: Machine)
    reads b, b.data
    requires b.Valid()
    ensures m.Valid()
  {
    Machine(b.View(), b.maxLength)
  }

  method ApplyWrite(b: BinnaryData, op: BufferOp)
    requires b.Valid() && !op.Reads() && Legal(StateOf(b), op)
    modifies b, b.data
    ensures b.Valid() && (b.data == old(b.data) || fresh(b.data))
    ensures StateOf(b) == Written(old(StateOf(b)), op)
  {
    hide Reserved;
    match op {
      case Reserve(len) => b.Reserve(len);
      case Grow(more) => b.Grow(more);
      case Write(src) => b.Write(src);
      case WriteTyped(image) => b.WriteTyped(image);
      case Put(dat) => b.Put(dat);
    }
  }

  method ApplyRead(b: BinnaryData, op: BufferOp) returns (out: string)
    requires b.Valid() && op.Reads() && Legal(StateOf(b), op)
    modifies b`pget
    ensures b.Valid()
    ensures b.View() == old(b.View()).(index := IndexAfter(old(b.View()), op))
    ensures out == Output(old(StateOf(b)), op)
  {
    hide CStr, TokenLength, FindFirst, BinnaryData.Cleared;
    out := [];
    match op {
      case ReadTyped(size) => out := b.ReadTyped(size);
      case Get =>
        var g := b.Get();
        out := [g];
      case Unget => b.Unget();
      case ReadSome(num) =>
        var dest, _ := b.ReadSome(num);
        out := dest;
      case GetLine => out := b.GetLine();
      case GetToken => out := b.GetToken();
    }
  }

  method ApplyOp(b: BinnaryData, op: BufferOp) returns (out: string)
    requires b.Valid() && Legal(StateOf(b), op)
    modifies b, b.data
    ensures b.Valid() && (b.data == old(b.data) || fresh(b.data))
    ensures StateOf(b) == Next(old(StateOf(b)), op)
    ensures out == Output(old(StateOf(b)), op)
  {
    hide Written, IndexAfter;
    if op.Reads() {
      out := ApplyRead(b, op);
    } else {
      out := [];
      ApplyWrite(b, op);
    }
  }

  lemma OneOp(m: Machine, ops: seq<BufferOp>)
    requires m.Valid() && ops != [] && AllLegal(m, ops)
    ensures Legal(m, ops[0]) && AllLegal(Next(m, ops[0]), ops[1..])
    ensures Outputs(m, ops) == [Output(m, ops[0])] + Outputs(Next(m, ops[0]), ops[1..])
    ensures Final(m, ops) == Final(Next(m, ops[0]), ops[1..])
  {
    hide Legal, Next, Output;
  }

  /**
   Any legal run on a new buffer, through any number of reallocations with or without contents, reads what
   the plain byte sequence would.
   */
  method RunBuffer(ops: seq<BufferOp>) returns (outs: seq<string>, index: nat, size: nat, capacity: nat)
    requires AllLegal(NEW_MACHINE, ops)
    ensures outs == Outputs(NEW_MACHINE, ops)
    ensures var m := Final(NEW_MACHINE, ops); index == m.buf.index && size == |m.buf.bytes| && capacity == m.capacity
  {
    hide Legal, Next, Output;
    var b := new BinnaryData();
    outs := [];
    for i := 0 to |ops|
      invariant b.Valid() && fresh(b) && fresh(b.data)
      invariant AllLegal(StateOf(b), ops[i..])
      invariant Outputs(NEW_MACHINE, ops) == outs + Outputs(StateOf(b), ops[i..])
      invariant Final(NEW_MACHINE, ops) == Final(StateOf(b), ops[i..])
    {
      ghost var before := StateOf(b);
      OneOp(before, ops[i..]);
      assert ops[i..][1..] == ops[i + 1..];
      var out := ApplyOp(b, ops[i]);
      Regroup(outs, [out], Outputs(StateOf(b), ops[i + 1..]));
      outs := outs + [out];
    }
    index, size, capacity := b.pget, b.usedLength, b.maxLength;
  }

  /** Consecutive partial reads take adjacent slices. */
  lemma AdjacentReads(m: Machine, i: nat, j: nat)
    requires m.Valid() && m.capacity > 0
    ensures var m1 := Next(m, ReadSome(i));
      Output(m, ReadSome(i)) + Output(m1, ReadSome(j)) == Output(m, ReadSome(i + j))
      && Next(m1, ReadSome(j)) == Next(m, ReadSome(i + j))
  {
    hide CStr, TokenLength, FindFirst, Written;
    var b := m.buf;
    var k := Least(|b.bytes| - b.index, i);
    assert Next(m, ReadSome(i)).buf.Rest() == b.Rest()[k..];
  }
}
