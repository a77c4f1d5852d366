/**
 The integer inserters and extractors of `BinnaryData` (`<<` and `>>`): an integer is stored as the
 bytes of its two's complement representation, least significant byte first.
 */
module TypedData {
  import opened Text
  import opened BinData

  datatype IntType = Byte | Char | Short | UShort | Int | UInt | Long | ULong
  {
    function Size(): (n: nat)
      ensures n > 0
    {
      match this
      case Byte => 1
      case Char => 1
      case Short => 2
      case UShort => 2
      case Int => 4
      case UInt => 4
      case Long => 8
      case ULong => 8
    }

    predicate Signed() {
      this in {Char, Short, Int, Long}
    }
  }

  function Pow256(n: nat): (r: nat)
    ensures r > 0
  {
    if n == 0 then 1 else 256 * Pow256(n - 1)
  }

  predicate InRange(t: IntType, v: int) {
    var m := Pow256(t.Size());
    if t.Signed() then -(m / 2) <= v < m / 2 else 0 <= v < m
  }

  datatype Value = Value(t: IntType, v: int)
  {
    predicate Valid() {
      InRange(t, v)
    }
  }

  /** The `n` low bytes of a natural number. */
  function ToBytes(u: nat, n: nat): (r: seq<byte>)
    ensures |r| == n
  {
    if n == 0 then [] else [(u % 256) as char] + ToBytes(u / 256, n - 1)
  }

  function FromBytes(image: seq<byte>): (u: nat) {
    if image == [] then 0 else image[0] as int + 256 * FromBytes(image[1..])
  }

  function Encode(x: Value): (r: seq<byte>)
    requires x.Valid()
    ensures |r| == x.t.Size()
  {
    ToBytes(if x.v < 0 then x.v + Pow256(x.t.Size()) else x.v, x.t.Size())
  }

  function Decode(t: IntType, image: seq<byte>): (v: int)
    requires |image| == t.Size()
  {
    var u := FromBytes(image);
    if t.Signed() && u >= Pow256(t.Size()) / 2 then u - Pow256(t.Size()) else u
  }

  lemma {:induction false} FromToBytes(u: nat, n: nat)
    requires u < Pow256(n)
    ensures FromBytes(ToBytes(u, n)) == u
  {
    if n > 0 {
      FromToBytes(u / 256, n - 1);
      assert ToBytes(u, n)[1..] == ToBytes(u / 256, n - 1);
    }
  }

  lemma DecodeEncode(x: Value)
    requires x.Valid()
    ensures Decode(x.t, Encode(x)) == x.v
  {
    var m := Pow256(x.t.Size());
    assert m == 2 * (128 * Pow256(x.t.Size() - 1));
    FromToBytes(if x.v < 0 then x.v + m else x.v, x.t.Size());
  }

  lemma {:induction false} ByteAt(u: nat, n: nat, i: nat)
    requires i < n
    ensures ToBytes(u, n)[i] as int == u / Pow256(i) % 256
  {
    if i > 0 {
      ByteAt(u / 256, n - 1, i - 1);
      DivideTwice(u, Pow256(i - 1));
    }
  }

  lemma DivideTwice(v: nat, b: nat)
    requires b > 0
    ensures v / 256 / b == v / (256 * b)
  {
    var q, r := v / 256 / b, v / 256 % b;
    QuotientRemainder(v / 256, b);
    Regrouped(b, q);
    QuotientIs(v, 256 * b, q, 256 * r + v % 256);
  }

  lemma QuotientRemainder(v: nat, b: nat)
    requires b > 0
    ensures v == b * (v / b) + v % b && 0 <= v % b < b
  {
  }

  lemma Regrouped(b: nat, q: nat)
    ensures 256 * b * q == 256 * (b * q)
  {
  }

  lemma QuotientIs(v: int, m: int, q: int, r: int)
    requires m > 0 && v == m * q + r && 0 <= r < m
    ensures v / m == q
  {
    var d := v / m - q;
    assert v == m * (v / m) + v % m;
    assert m * d == r - v % m by {
      assert m * (v / m) - m * q == m * d;
    }
    assert d >= 1 ==> m * d >= m;
    assert d <= -1 ==> m * d <= -m;
  }

  lemma {:induction false} PowSplit(i: nat, k: nat)
    ensures Pow256(i + k) == Pow256(i) * Pow256(k)
  {
    if i > 0 {
      PowSplit(i - 1, k);
    }
  }

  /** Byte `i` is the digit of weight 256^i; the two's complement of a negative number borrows from beyond. */
  lemma LittleEndian(x: Value, i: nat)
    requires x.Valid() && i < x.t.Size()
    ensures Encode(x)[i] as int == x.v / Pow256(i) % 256
  {
    var n := x.t.Size();
    var u := if x.v < 0 then x.v + Pow256(n) else x.v;
    ByteAt(u, n, i);
    if x.v < 0 {
      var k := n - i - 1;
      PowSplit(i, k + 1);
      AddMultiple(x.v, Pow256(i), Pow256(k + 1));
      assert Pow256(k + 1) == 256 * Pow256(k);
      AddMultiple(x.v / Pow256(i), 256, Pow256(k));
    }
  }

  lemma AddMultiple(v: int, m: int, c: int)
    requires m > 0
    ensures (v + m * c) / m == v / m + c && (v + m * c) % m == v % m
  {
    assert v == m * (v / m) + v % m;
    assert v + m * c == m * (v / m + c) + v % m;
    QuotientIs(v + m * c, m, v / m + c, v % m);
  }

  /** The widths and the ranges of the eight types. */
  lemma Ranges(t: IntType, v: int)
    ensures InRange(t, v) <==> match t
      case Byte => 0 <= v <= 255
      case Char => -128 <= v <= 127
      case Short => -32768 <= v <= 32767
      case UShort => 0 <= v <= 65535
      case Int => -0x8000_0000 <= v <= 0x7fff_ffff
      case UInt => 0 <= v <= 0xffff_ffff
      case Long => -0x8000_0000_0000_0000 <= v <= 0x7fff_ffff_ffff_ffff
      case ULong => 0 <= v <= 0xffff_ffff_ffff_ffff
  {
    assert Pow256(1) == 256;
    assert Pow256(2) == 65536;
    assert Pow256(4) == 65536 * Pow256(2);
    assert Pow256(6) == 65536 * Pow256(4);
    assert Pow256(8) == 65536 * Pow256(6);
  }

  /** What inserting the whole list appends to the buffer. */
  function EncodeAll(xs: seq<Value>): seq<byte>
    requires forall x :: x in xs ==> x.Valid()
  {
    if xs == [] then [] else EncodeAll(xs[..|xs| - 1]) + Encode(xs[|xs| - 1])
  }

  method InsertInt(b: BinnaryData, x: Value)
    requires b.Valid() && x.Valid()
    modifies b, b.data
    ensures b.Valid() && (b.data == old(b.data) || fresh(b.data))
    ensures b.View() == Buffer(old(b.View()).bytes + Encode(x), old(b.pget))
  {
    b.WriteTyped(Encode(x));
  }

  method ExtractInt(b: BinnaryData, t: IntType) returns (v: int)
    requires b.Valid() && b.pget + t.Size() <= b.usedLength
    modifies b`pget
    ensures b.Valid()
    ensures b.View() == Buffer(old(b.View()).bytes, old(b.pget) + t.Size())
    ensures v == Decode(t, old(b.View()).Rest()[..t.Size()])
  {
    var image := b.ReadTyped(t.Size());
    v := Decode(t, image);
  }

  /** The bytes of the list from position `i` on start where the bytes of its first `i` elements end. */
  lemma {:induction false} EncodeAllSplit(xs: seq<Value>, i: nat)
    requires i < |xs| && forall x :: x in xs ==> x.Valid()
    ensures var n := |EncodeAll(xs[..i])|;
      && |EncodeAll(xs[..i + 1])| == n + xs[i].t.Size() <= |EncodeAll(xs)|
      && EncodeAll(xs)[n..n + xs[i].t.Size()] == Encode(xs[i])
      && EncodeAll(xs[..i + 1]) == EncodeAll(xs[..i]) + Encode(xs[i])
  {
    hide Encode;
    assert xs[..i + 1][..i] == xs[..i];
    if i == |xs| - 1 {
      assert xs[..i + 1] == xs;
    } else {
      var front := xs[..|xs| - 1];
      EncodeAllSplit(front, i);
      assert front[..i] == xs[..i] && front[..i + 1] == xs[..i + 1] && front[i] == xs[i];
    }
  }

  method InsertAll(xs: seq<Value>) returns (b: BinnaryData)
    requires forall x :: x in xs ==> x.Valid()
    ensures fresh(b) && fresh(b.data) && b.Valid()
    ensures b.View() == Buffer(EncodeAll(xs), 0)
  {
    b := new BinnaryData();
    for i := 0 to |xs|
      invariant b.Valid() && fresh(b) && fresh(b.data)
      invariant b.View() == Buffer(EncodeAll(xs[..i]), 0)
    {
      assert xs[i] in xs;
      EncodeAllSplit(xs, i);
      InsertInt(b, xs[i]);
    }
    assert xs[..|xs|] == xs;
  }

  lemma EncodeAllNone()
    ensures EncodeAll([]) == []
  {
  }

  method ExtractAll(b: BinnaryData, ghost xs: seq<Value>, types: seq<IntType>) returns (ys: seq<int>)
    requires forall x :: x in xs ==> x.Valid()
    requires |types| == |xs| && forall i :: 0 <= i < |xs| ==> types[i] == xs[i].t
    requires b.Valid() && b.View() == Buffer(EncodeAll(xs), 0)
    modifies b`pget
    ensures b.Valid() && b.View() == Buffer(EncodeAll(xs), |EncodeAll(xs)|)
    ensures |ys| == |xs| && forall i :: 0 <= i < |xs| ==> ys[i] == xs[i].v
  {
    hide Encode, Decode, EncodeAll;
    assert EncodeAll(xs[..0]) == [] by {
      EncodeAllNone();
    }
    ys := [];
    for i := 0 to |types|
      invariant b.Valid() && b.View() == Buffer(EncodeAll(xs), |EncodeAll(xs[..i])|)
      invariant |ys| == i && forall k :: 0 <= k < i ==> ys[k] == xs[k].v
    {
      ghost var x, n := xs[i], b.pget;
      EncodeAllSplit(xs, i);
      assert x in xs;
      DecodeEncode(x);
      assert b.View().Rest()[..x.t.Size()] == EncodeAll(xs)[n..n + x.t.Size()];
      var v := ExtractInt(b, types[i]);
      ys := ys + [v];
    }
    assert xs[..|xs|] == xs;
  }

  /**
   Inserting a list of integers of mixed widths into a new buffer and extracting at the same types gives
   the list back; every extraction stays inside what was written, and both cursors end at the same place.
   */
  method RoundTrip(xs: seq<Value>, types: seq<IntType>) returns (ys: seq<int>, pget: nat, pput: nat)
    requires forall x :: x in xs ==> x.Valid()
    requires |types| == |xs| && forall i :: 0 <= i < |xs| ==> types[i] == xs[i].t
    ensures |ys| == |xs| && forall i :: 0 <= i < |xs| ==> ys[i] == xs[i].v
    ensures pget == pput == |EncodeAll(xs)|
  {
    var b := InsertAll(xs);
    ys := ExtractAll(b, xs, types);
    pget, pput := b.pget, b.pput;
  }
}
