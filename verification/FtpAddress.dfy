/**
 The address of a data connection: the six decimal numbers that PORT carries and that the reply to PASV
 prints (section 4.1.2 of RFC 959).
 */
module FtpAddress {
  import opened Basics
  import opened Text

  const INT_MAX := 0x7fff_ffff
  const INT_MIN := -0x8000_0000

  // ----- decimal numbers -----

  /** What stream insertion prints for a number that is not negative. */
  function Decimal(n: nat): (r: string)
    ensures r != [] && forall i :: 0 <= i < |r| ==> IsDigit(r[i])
  {
    if n < 10 then [DigitChar(n)] else Decimal(n / 10) + [DigitChar(n % 10)]
  }

  function DigitChar(d: nat): (c: char)
    requires d < 10
    ensures IsDigit(c) && DigitValue(c) == d
  {
    ('0' as int + d) as char
  }

  predicate IsDigit(c: char) {
    '0' <= c <= '9'
  }

  function DigitValue(c: char): nat
    requires IsDigit(c)
  {
    c as int - '0' as int
  }

  /** White space as stream extraction skips it. */
  predicate IsStreamSpace(c: char) {
    c == ' ' || 9 <= c as int <= 13
  }

  function DigitsFrom(s: string, acc: nat): nat
    decreases |s|
  {
    if s != [] && IsDigit(s[0]) then DigitsFrom(s[1..], acc * 10 + DigitValue(s[0])) else acc
  }

  function SkipSpace(s: string): string {
    if s != [] && IsStreamSpace(s[0]) then SkipSpace(s[1..]) else s
  }

  function Clamp(n: int): int {
    if n > INT_MAX then INT_MAX else if n < INT_MIN then INT_MIN else n
  }

  /** What extracting an `int` stores: a number out of range is cut to the nearest limit, none at all reads as 0. */
  function ReadInt(s: string): int {
    var t := SkipSpace(s);
    if t != [] && t[0] == '-' then Clamp(0 - DigitsFrom(t[1..], 0) as int)
    else if t != [] && t[0] == '+' then Clamp(DigitsFrom(t[1..], 0))
    else Clamp(DigitsFrom(t, 0))
  }

  lemma {:induction false} DigitsOfDecimal(n: nat, rest: string)
    ensures DigitsFrom(Decimal(n) + rest, 0) == DigitsFrom(rest, n)
  {
    if n < 10 {
      assert (Decimal(n) + rest)[1..] == rest;
    } else {
      var d := [DigitChar(n % 10)];
      assert Decimal(n) + rest == Decimal(n / 10) + (d + rest);
      DigitsOfDecimal(n / 10, d + rest);
      assert (d + rest)[1..] == rest;
    }
  }

  lemma ReadDecimal(n: nat)
    requires n <= INT_MAX
    ensures ReadInt(Decimal(n)) == n && ReadInt([' '] + Decimal(n)) == n
  {
    DigitsOfDecimal(n, []);
    assert Decimal(n) + [] == Decimal(n);
    assert ([' '] + Decimal(n))[1..] == Decimal(n);
    assert IsDigit(Decimal(n)[0]);
  }

  /** The characters that extraction skips: the blank, and from the tabulator to the carriage return. */
  const BLANKS := {9, 10, 11, 12, 13, 32}

  const DIGITS := "0123456789"

  lemma {:induction false} SpaceSkipped(space: string, s: string)
    requires forall i :: 0 <= i < |space| ==> space[i] as int in BLANKS
    ensures ReadInt(space + s) == ReadInt(s)
  {
    if space == [] {
      assert space + s == s;
    } else {
      SpaceSkipped(space[1..], s);
      assert (space + s)[1..] == space[1..] + s;
    }
  }

  lemma DecimalDigits(n: nat)
    ensures Decimal(n) == (if n < 10 then [] else Decimal(n / 10)) + [DIGITS[n % 10]]
  {
  }

  lemma DigitIn(c: char)
    ensures IsDigit(c) <==> c in DIGITS
  {
    if IsDigit(c) {
      assert DIGITS[DigitValue(c)] == c;
    }
  }

  lemma NumberBefore(n: nat, rest: string)
    requires rest == [] || rest[0] !in DIGITS
    ensures DigitsFrom(Decimal(n) + rest, 0) == n && IsDigit((Decimal(n) + rest)[0])
  {
    DigitsOfDecimal(n, rest);
    if rest != [] {
      DigitIn(rest[0]);
    }
  }

  lemma ReadsFrom(n: nat, rest: string)
    requires rest == [] || rest[0] !in DIGITS
    ensures ReadInt(Decimal(n) + rest) == Least(n, 2147483647)
    ensures ReadInt(['+'] + (Decimal(n) + rest)) == Least(n, 2147483647)
    ensures ReadInt(['-'] + (Decimal(n) + rest)) == 0 - Least(n, 2147483648)
  {
    var number := Decimal(n) + rest;
    NumberBefore(n, rest);
    hide DigitsFrom, Decimal;
    assert (['+'] + number)[1..] == number && (['-'] + number)[1..] == number;
  }

  /**
   Extraction of an `int`: white space, a sign or none, the decimal digits, and anything behind them; the
   value is cut to 32 bits with a sign.
   */
  lemma ReadsSigned(space: string, n: nat, rest: string)
    requires forall i :: 0 <= i < |space| ==> space[i] as int in BLANKS
    requires rest == [] || rest[0] !in DIGITS
    ensures ReadInt(space + (Decimal(n) + rest)) == Least(n, 2147483647)
    ensures ReadInt(space + (['+'] + (Decimal(n) + rest))) == Least(n, 2147483647)
    ensures ReadInt(space + (['-'] + (Decimal(n) + rest))) == 0 - Least(n, 2147483648)
  {
    hide ReadInt;
    ReadsFrom(n, rest);
    SpaceSkipped(space, Decimal(n) + rest);
    SpaceSkipped(space, ['+'] + (Decimal(n) + rest));
    SpaceSkipped(space, ['-'] + (Decimal(n) + rest));
  }

  /** Without a number behind the white space the value is 0. */
  lemma ReadsNothing(space: string, rest: string)
    requires forall i :: 0 <= i < |space| ==> space[i] as int in BLANKS
    requires rest == [] || (rest[0] !in DIGITS && rest[0] !in "+-" && rest[0] as int !in BLANKS)
    ensures ReadInt(space + rest) == 0
  {
    SpaceSkipped(space, rest);
    if rest != [] {
      DigitIn(rest[0]);
    }
  }

  // ----- comma-separated fields -----

  function Commas(s: string): nat {
    if s == [] then 0 else (if s[0] == ',' then 1 else 0) + Commas(s[1..])
  }

  function Pieces(s: string): seq<string>
    decreases |s|
  {
    var k := FindFirst(s, ',');
    if k == NPOS then [s] else [s[..k]] + Pieces(s[k + 1..])
  }

  function ReadAll(pieces: seq<string>): (r: seq<int>)
    ensures |r| == |pieces|
    ensures forall i :: 0 <= i < |pieces| ==> r[i] == ReadInt(pieces[i])
  {
    seq(|pieces|, i requires 0 <= i < |pieces| => ReadInt(pieces[i]))
  }

  /** What the loop of PORT writes for an argument: nothing at all when there is no comma. */
  function Slots(s: string): seq<int> {
    if ',' in s then ReadAll(Pieces(s)) else []
  }

  lemma {:induction false} CommasAt(s: string, k: nat)
    requires k < |s| && s[k] == ',' && forall i :: 0 <= i < k ==> s[i] != ','
    ensures Commas(s) == 1 + Commas(s[k + 1..])
  {
    if k > 0 {
      CommasAt(s[1..], k - 1);
      assert s[1..][k..] == s[k + 1..];
    }
  }

  lemma {:induction false} NoCommas(s: string)
    ensures Commas(s) == 0 <==> ',' !in s
  {
    if s != [] {
      NoCommas(s[1..]);
    }
  }

  lemma {:induction false} PiecesCount(s: string)
    ensures |Pieces(s)| == Commas(s) + 1
    decreases |s|
  {
    NoCommas(s);
    var k := FindFirst(s, ',');
    if k != NPOS {
      CommasAt(s, k);
      PiecesCount(s[k + 1..]);
    }
  }

  /** An argument with `n` commas, `n` at least 1, fills `n + 1` slots. */
  lemma SlotsCount(s: string)
    ensures |Slots(s)| == if Commas(s) == 0 then 0 else Commas(s) + 1
  {
    NoCommas(s);
    PiecesCount(s);
  }

  lemma SlotsStep(s: string)
    requires ',' in s
    ensures var k := FindFirst(s, ',');
      var rest := s[k + 1..];
      && Commas(s) == 1 + Commas(rest)
      && Slots(s) == [ReadInt(s[..k])] + (if ',' in rest then Slots(rest) else [ReadInt(rest)])
  {
    hide ReadInt, Commas, Pieces, FindFirst, ReadAll;
    var k := FindFirst(s, ',');
    var rest := s[k + 1..];
    CommasAt(s, k);
    PiecesStep(s, k);
    ReadAllCons(s[..k], Pieces(rest));
    assert Slots(s) == [ReadInt(s[..k])] + ReadAll(Pieces(rest));
    if ',' !in rest {
      ReadAllOne(rest);
    }
  }

  lemma PiecesStep(s: string, k: int)
    requires ',' in s && k == FindFirst(s, ',')
    ensures Pieces(s) == [s[..k]] + Pieces(s[k + 1..])
    ensures ',' !in s[k + 1..] ==> Pieces(s[k + 1..]) == [s[k + 1..]]
  {
    hide FindFirst;
  }

  lemma ReadAllCons(piece: string, pieces: seq<string>)
    ensures ReadAll([piece] + pieces) == [ReadInt(piece)] + ReadAll(pieces)
  {
    hide ReadInt;
  }

  lemma ReadAllOne(piece: string)
    ensures ReadAll([piece]) == [ReadInt(piece)]
  {
    hide ReadInt;
  }

  datatype Address = Address(ip: seq<nat>, port: nat)
  {
    predicate Valid() {
      |ip| == 4 && (forall i :: 0 <= i < 4 ==> ip[i] < 256) && port < 65536
    }
  }

  /** The session's address after PORT: bytes and a 16-bit port, cut out of whatever the slots hold. */
  function AddressOf(slots: seq<int>): (r: Address)
    ensures r.Valid()
  {
    var a := (i: nat) => if i < |slots| then slots[i] else 0;
    Address([a(0) % 256, a(1) % 256, a(2) % 256, a(3) % 256], (a(4) * 256 + a(5)) % 65536)
  }

  /** A slot counts for its low byte, and the last two for the low 16 bits of the number they make. */
  lemma SlotsWrap(slots: seq<int>)
    requires |slots| >= 6
    ensures var r := AddressOf(slots);
      && (forall i :: 0 <= i < 4 ==> exists q: int :: slots[i] == 256 * q + r.ip[i])
      && exists q: int :: 256 * slots[4] + slots[5] == 65536 * q + r.port
  {
    var r := AddressOf(slots);
    forall i | 0 <= i < 4
      ensures exists q: int :: slots[i] == 256 * q + r.ip[i]
    {
      assert slots[i] == 256 * (slots[i] / 256) + r.ip[i];
    }
    assert 256 * slots[4] + slots[5] == 65536 * ((256 * slots[4] + slots[5]) / 65536) + r.port;
  }

  /** What PORT makes of the slots once the loop is done: address bytes and a port. */
  method ParsePort(addr: string) returns (address: Address)
    requires Commas(addr) <= 8
    ensures address == AddressOf(Slots(addr))
  {
    hide Slots, Commas, AddressOf;
    var a, p := FillSlots(addr);
    ghost var slots := a[..];
    assert a[..p] == slots[..p];
    SlotsInArray(slots, p);
    var ip := [a[0] % 256, a[1] % 256, a[2] % 256, a[3] % 256];
    address := Address(ip, (a[4] * 256 + a[5]) % 65536);
  }

  /**
   The parsing loop of PORT, which writes into an array of nine slots that it never bounds: it is defined
   for up to eight commas, and terminates with exactly the argument's fields in the slots.
   */
  method FillSlots(addr: string) returns (a: array<int>, p: nat)
    requires Commas(addr) <= 8
    ensures fresh(a) && a.Length == 9 && p <= 9
    ensures a[..p] == Slots(addr) && forall i :: p <= i < 9 ==> a[i] == 0
  {
    hide ReadInt, Slots, Commas, FindFirst, Substr;
    a := new int[9](_ => 0);
    p := 0;
    var remaining := addr;
    ghost var all, written: seq<int> := Slots(addr), [];
    SlotsCount(addr);
    NoSlots(addr);
    while ',' in remaining
      invariant p <= 9 && a[..p] == written && written + Slots(remaining) == all && |all| <= 9
      invariant forall i :: p <= i < 9 ==> a[i] == 0
      decreases |remaining|
    {
      var k := FindFirst(remaining, ',');
      var part, rest := Substr(remaining, 0, k), Substr(remaining, k + 1, NPOS);
      TakeSlot(written, remaining, part, rest, all);
      a[p] := ReadInt(part);
      p, written := p + 1, written + [ReadInt(part)];
      assert a[..p] == written;
      remaining := rest;
      if ',' !in remaining {
        a[p] := ReadInt(remaining);
        p, written := p + 1, written + [ReadInt(remaining)];
        assert a[..p] == written;
      }
    }
    NoSlots(remaining);
  }

  /** One turn of the loop takes the field up to the next comma, and with the last comma the one behind it too. */
  lemma TakeSlot(written: seq<int>, remaining: string, part: string, rest: string, all: seq<int>)
    requires ',' in remaining && written + Slots(remaining) == all
    requires var k := FindFirst(remaining, ',');
      part == Substr(remaining, 0, k) && rest == Substr(remaining, k + 1, NPOS)
    ensures |written| + 1 < |all| && |rest| < |remaining|
    ensures ',' in rest ==> written + [ReadInt(part)] + Slots(rest) == all
    ensures ',' !in rest ==> Slots(rest) == [] && written + [ReadInt(part)] + [ReadInt(rest)] == all
  {
    hide ReadInt, Slots, FindFirst;
    NoSlots(remaining);
    NoSlots(rest);
    SlotsStep(remaining);
    Regroup(written, [ReadInt(part)], if ',' in rest then Slots(rest) else [ReadInt(rest)]);
  }

  lemma NoSlots(s: string)
    ensures ',' !in s ==> Slots(s) == []
    ensures ',' in s ==> |Slots(s)| >= 2
  {
    if ',' in s {
      NoCommas(s);
      SlotsCount(s);
    }
  }

  lemma SlotsInArray(a: seq<int>, p: nat)
    requires |a| == 9 && p <= 9 && forall i :: p <= i < 9 ==> a[i] == 0
    ensures AddressOf(a[..p]) == Address([a[0] % 256, a[1] % 256, a[2] % 256, a[3] % 256], (a[4] * 256 + a[5]) % 65536)
  {
  }

  // ----- PASV prints what PORT parses -----

  function Join(pieces: seq<string>): string {
    if pieces == [] then []
    else if |pieces| == 1 then pieces[0]
    else pieces[0] + [','] + Join(pieces[1..])
  }

  function Numbers(address: Address): seq<nat>
    requires address.Valid()
  {
    address.ip + [address.port / 256, address.port % 256]
  }

  function Printed(ns: seq<nat>): (r: seq<string>)
    ensures |r| == |ns|
    ensures forall i :: 0 <= i < |ns| ==> r[i] == Decimal(ns[i])
  {
    seq(|ns|, i requires 0 <= i < |ns| => Decimal(ns[i]))
  }

  function PrintAddress(address: Address): string
    requires address.Valid()
  {
    Join(Printed(Numbers(address)))
  }

  lemma {:induction false} PiecesOfJoin(pieces: seq<string>)
    requires pieces != [] && forall i :: 0 <= i < |pieces| ==> ',' !in pieces[i]
    ensures Pieces(Join(pieces)) == pieces
    ensures |pieces| > 1 ==> ',' in Join(pieces)
  {
    if |pieces| > 1 {
      PiecesOfJoin(pieces[1..]);
      var rest := Join(pieces[1..]);
      FindFirstAt(pieces[0], ',', rest);
      var s := Join(pieces);
      assert s[|pieces[0]|] == ',' && s[..|pieces[0]|] == pieces[0] && s[|pieces[0]| + 1..] == rest;
    }
  }

  lemma JoinFirst(pieces: seq<string>)
    requires |pieces| > 1
    ensures [' '] + Join(pieces) == Join([[' '] + pieces[0]] + pieces[1..])
  {
    var spaced := [[' '] + pieces[0]] + pieces[1..];
    assert spaced[1..] == pieces[1..];
    assert [' '] + (pieces[0] + [','] + Join(pieces[1..])) == ([' '] + pieces[0]) + [','] + Join(pieces[1..]);
  }

  lemma NumbersGiveAddress(address: Address)
    requires address.Valid()
    ensures AddressOf(Numbers(address)) == address
  {
    var ns := Numbers(address);
    assert (ns[4] * 256 + ns[5]) % 65536 == address.port;
    assert AddressOf(ns).ip == address.ip;
  }

  lemma ReadPrinted(ns: seq<nat>)
    requires ns != [] && forall i :: 0 <= i < |ns| ==> ns[i] <= INT_MAX
    ensures var pieces := Printed(ns);
      ReadAll([[' '] + pieces[0]] + pieces[1..]) == ns
  {
    var pieces := Printed(ns);
    var spaced := [[' '] + pieces[0]] + pieces[1..];
    hide ReadInt, Decimal;
    forall i | 0 <= i < |ns|
      ensures ReadInt(spaced[i]) == ns[i]
    {
      ReadDecimal(ns[i]);
    }
  }

  lemma NoCommaPrinted(ns: seq<nat>)
    ensures forall i :: 0 <= i < |ns| ==> ',' !in Printed(ns)[i] && ',' !in [' '] + Printed(ns)[i]
  {
    hide Decimal;
    assert !IsDigit(',');
  }

  /** The argument of PORT as the source cuts it out still has the blank in front. */
  lemma PortUndoesPasv(address: Address)
    requires address.Valid()
    ensures Commas([' '] + PrintAddress(address)) == 5
    ensures AddressOf(Slots([' '] + PrintAddress(address))) == address
  {
    var ns := Numbers(address);
    NumbersGiveAddress(address);
    assert |ns| == 6 && forall i :: 0 <= i < 6 ==> ns[i] <= INT_MAX;
    hide Numbers, AddressOf, ReadInt, Decimal, Join, Pieces, Commas;
    var pieces := Printed(ns);
    var spaced := [[' '] + pieces[0]] + pieces[1..];
    JoinFirst(pieces);
    NoCommaPrinted(ns);
    PiecesOfJoin(spaced);
    PiecesCount(Join(spaced));
    ReadPrinted(ns);
  }
}
