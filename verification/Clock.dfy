/**
 Wall-clock arithmetic: the millisecond difference of two `timeval`s, with the C division that
 truncates toward zero and the conversion to an unsigned 64-bit result.
 */
module Clock {

  const UINT64: int := 0x1_0000_0000_0000_0000

  datatype Timeval = Timeval(sec: int, usec: int)

  /** Division as C defines it: the quotient is rounded toward zero. */
  function TruncDiv(a: int, b: int): int
    requires b > 0
  {
    if a >= 0 then a / b else -((-a) / b)
  }

  function MsTimeDiff(a: Timeval, b: Timeval): nat {
    ((b.sec - a.sec) * 1000 + TruncDiv(b.usec - a.usec, 1000)) % UINT64
  }

  function Micros(t: Timeval): int {
    t.sec * 1000000 + t.usec
  }

  /**
   `b` was read from a clock that does not run backwards at or after `a`: the microsecond parts are in
   range and the distance fits the unsigned 64-bit milliseconds that the difference is returned in.
   */
  predicate NotAfter(a: Timeval, b: Timeval) {
    && 0 <= a.usec < 1000000
    && 0 <= b.usec < 1000000
    && Micros(a) <= Micros(b)
    && b.sec - a.sec < UINT64 / 1000
  }

  lemma TruncError(u: int)
    requires -1000000 < u < 1000000
    ensures -999 <= 1000 * TruncDiv(u, 1000) - u <= 999 && -999 <= TruncDiv(u, 1000) <= 999
    ensures u >= 0 ==> TruncDiv(u, 1000) >= 0
  {
  }

  lemma SmallMod(n: int, m: int)
    requires 0 <= n < m
    ensures n % m == n
  {
  }

  /** One tick is never negative (it would wrap to a huge one) and is off by less than a millisecond either way. */
  lemma TickError(a: Timeval, b: Timeval)
    requires NotAfter(a, b)
    ensures -999 <= 1000 * MsTimeDiff(a, b) - (Micros(b) - Micros(a)) <= 999
  {
    var s, u := b.sec - a.sec, b.usec - a.usec;
    var q := TruncDiv(u, 1000);
    TruncError(u);
    assert s >= 0 && (s == 0 ==> u >= 0);
    SmallMod(s * 1000 + q, UINT64);
  }

  /** What a tick counts too much: what the truncation rounds up, or, as a negative number, down. */
  function Rounding(a: Timeval, b: Timeval): int {
    if b.usec < a.usec then (a.usec - b.usec) % 1000 else -((b.usec - a.usec) % 1000)
  }

  lemma TruncExactly(u: int)
    ensures 1000 * TruncDiv(u, 1000) - u == if u < 0 then (-u) % 1000 else -(u % 1000)
  {
  }

  /**
   A tick exceeds the time that has passed exactly when its microsecond part is borrowed and no whole number
   of milliseconds: truncation then rounds it up.
   */
  lemma TickExactly(a: Timeval, b: Timeval)
    requires NotAfter(a, b)
    ensures 1000 * MsTimeDiff(a, b) == Micros(b) - Micros(a) + Rounding(a, b)
    ensures 1000 * MsTimeDiff(a, b) > Micros(b) - Micros(a) <==> b.usec < a.usec && (a.usec - b.usec) % 1000 != 0
  {
    var s, u := b.sec - a.sec, b.usec - a.usec;
    TruncError(u);
    TruncExactly(u);
    assert s >= 0 && (s == 0 ==> u >= 0);
    SmallMod(s * 1000 + TruncDiv(u, 1000), UINT64);
  }

  /** So one microsecond can count as a millisecond. */
  lemma TickCanRunAhead()
    ensures var a, b := Timeval(0, 999999), Timeval(1, 0);
      NotAfter(a, b) && Micros(b) - Micros(a) == 1 && MsTimeDiff(a, b) == 1
  {
    assert TruncDiv(-999999, 1000) == -999;
  }
}
