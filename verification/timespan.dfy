/**
 * LLBC_TimeSpan: a signed 64-bit count of microseconds, with unit-conversion
 * constructors, total getters, arithmetic, comparisons, and stream
 * serialization.  Overflow of the sint64 arithmetic is undefined behaviour in
 * C++; this model chooses two's-complement wrap-around for it, and every
 * result stated "even on overflow" holds under that choice only.
 */
module TimeSpanModel {
  import opened Bytes
  import opened LlbcStream

  const MICROS_PER_MILLI: nat := 1_000
  const MICROS_PER_SECOND: nat := 1_000_000
  const MICROS_PER_MINUTE: nat := 60_000_000
  const MICROS_PER_HOUR: nat := 3_600_000_000
  const MICROS_PER_DAY: nat := 86_400_000_000

  const INT64_MODULUS: nat := 0x1_0000_0000_0000_0000

  datatype TimeSpan = TimeSpan(span: Int64)

  // ---------------------------------------------------------------------------
  // Two's-complement arithmetic
  // ---------------------------------------------------------------------------

  /** CastInt64 moves its argument by a whole number of 2^64 steps. */
  lemma CastInt64Offset(x: int) returns (k: int)
    ensures CastInt64(x) == x + k * INT64_MODULUS
  {
    var q, u := x / INT64_MODULUS, x % INT64_MODULUS;
    assert x == q * INT64_MODULUS + u;
    if u >= 0x8000_0000_0000_0000 {
      k := -q - 1;
    } else {
      k := -q;
    }
  }

  /** CastInt64 changes its argument only by a multiple of 2^64. */
  lemma CastInt64Congruent(x: int)
    ensures (CastInt64(x) - x) % INT64_MODULUS == 0
  {
    var k := CastInt64Offset(x);
    ModUnique(CastInt64(x) - x, INT64_MODULUS, k, 0);
  }

  /** Values that differ by a multiple of 2^64 cast to the same int64. */
  lemma CastInt64Shift(x: int, k: int)
    ensures CastInt64(x + k * INT64_MODULUS) == CastInt64(x)
  {
    var q, u := x / INT64_MODULUS, x % INT64_MODULUS;
    ModUnique(x + k * INT64_MODULUS, INT64_MODULUS, q + k, u);
  }

  /** `q` is the number of whole `unit`s in `span`, counted toward zero. */
  predicate WholeUnits(span: int, unit: nat, q: int)
  {
    && (span >= 0 ==> q * unit <= span < (q + 1) * unit)
    && (span < 0 ==> (q - 1) * unit < span <= q * unit)
  }

  /** C++ integer division of `a` by a positive `b`: the quotient is truncated toward zero. */
  function TruncDiv(a: int, b: nat): (q: int)
    requires b > 0
    ensures a >= 0 ==> 0 <= a - q * b < b
    ensures a < 0 ==> -(b as int) < a - q * b <= 0
  {
    if a >= 0 then a / b else -((-a) / b)
  }

  // ---------------------------------------------------------------------------
  // Constructors
  // ---------------------------------------------------------------------------

  /** LLBC_TimeSpan(): the zero span, which the other constructors also give for all-zero parts. */
  function Zero(): (z: TimeSpan)
    ensures z == FromSeconds(0, 0, 0) && z == FromParts(0, 0, 0, 0, 0, 0)
  {
    TimeSpan(0)
  }

  /**
   * LLBC_TimeSpan(seconds, milliSeconds = 0, microSeconds = 0).  With 32-bit
   * parts the total always fits in 64 bits, so it is exact.
   */
  function FromSeconds(seconds: Int32, milliSeconds: Int32, microSeconds: Int32): (t: TimeSpan)
    ensures t.span == seconds * MICROS_PER_SECOND + milliSeconds * MICROS_PER_MILLI + microSeconds
  {
    TimeSpan(seconds * MICROS_PER_SECOND + milliSeconds * MICROS_PER_MILLI + microSeconds)
  }

  /** The parts formula, as an unbounded integer. */
  function PartsTotal(days: int, hours: int, minutes: int, seconds: int, milliSeconds: int, microSeconds: int): int
  {
    (((days * 24 + hours) * 60 + minutes) * 60 + seconds) * MICROS_PER_SECOND
      + milliSeconds * MICROS_PER_MILLI + microSeconds
  }

  /**
   * LLBC_TimeSpan(days, hours, minutes, seconds, milliSeconds = 0, microSeconds = 0),
   * computed in sint64: exact when the total fits; otherwise the model's
   * wrap-around gives the total modulo 2^64.
   */
  function FromParts(days: Int32, hours: Int32, minutes: Int32, seconds: Int32,
                     milliSeconds: Int32, microSeconds: Int32): (t: TimeSpan)
    ensures var total := PartsTotal(days, hours, minutes, seconds, milliSeconds, microSeconds);
      -0x8000_0000_0000_0000 <= total < 0x8000_0000_0000_0000 ==> t.span == total
    ensures (t.span - PartsTotal(days, hours, minutes, seconds, milliSeconds, microSeconds)) % INT64_MODULUS == 0
  {
    var total := PartsTotal(days, hours, minutes, seconds, milliSeconds, microSeconds);
    CastInt64Congruent(total);
    TimeSpan(CastInt64(total))
  }

  /** With no days, hours or minutes the parts constructor agrees with the seconds constructor. */
  lemma FromPartsSeconds(seconds: Int32, milliSeconds: Int32, microSeconds: Int32)
    ensures FromParts(0, 0, 0, seconds, milliSeconds, microSeconds) == FromSeconds(seconds, milliSeconds, microSeconds)
  {
  }

  // ---------------------------------------------------------------------------
  // Total getters
  // ---------------------------------------------------------------------------

  /** The microsecond count, which determines the span. */
  function GetTotalMicroSeconds(t: TimeSpan): (us: Int64)
    ensures TimeSpan(us) == t
  {
    t.span
  }

  /** The whole milliseconds in the span, counted toward zero; an Int64 always holds them. */
  function GetTotalMilliSeconds(t: TimeSpan): (ms: Int64)
    ensures WholeUnits(t.span, MICROS_PER_MILLI, ms)
    ensures t.span >= 0 ==> ms == t.span / MICROS_PER_MILLI
  {
    TruncDiv(t.span, MICROS_PER_MILLI)
  }

  /** The int-returning totals: the truncated quotient, cast to a 32-bit int. */
  function TotalIn(t: TimeSpan, unit: nat): (r: Int32)
    requires unit > 0
    ensures -0x8000_0000 <= TruncDiv(t.span, unit) < 0x8000_0000 ==> r == TruncDiv(t.span, unit)
  {
    CastInt32(TruncDiv(t.span, unit))
  }

  /** A span strictly within 2^31 units either side of zero has a truncated quotient that fits an int. */
  lemma QuotientFits(a: int, unit: nat)
    requires unit > 0
    ensures -0x8000_0000 * unit < a < 0x8000_0000 * unit ==> -0x8000_0000 <= TruncDiv(a, unit) < 0x8000_0000
  {
    var q := TruncDiv(a, unit);
    if q >= 0x8000_0000 {
      assert q * unit >= 0x8000_0000 * unit;
    }
    if q < -0x8000_0000 {
      assert q * unit <= -0x8000_0001 * unit;
    }
  }

  /** The whole seconds in the span, counted toward zero, whenever an int holds them. */
  function GetTotalSeconds(t: TimeSpan): (s: Int32)
    ensures -0x8000_0000 * MICROS_PER_SECOND < t.span < 0x8000_0000 * MICROS_PER_SECOND
      ==> WholeUnits(t.span, MICROS_PER_SECOND, s)
  {
    QuotientFits(t.span, MICROS_PER_SECOND);
    TotalIn(t, MICROS_PER_SECOND)
  }

  /** The whole minutes in the span, counted toward zero, whenever an int holds them. */
  function GetTotalMinutes(t: TimeSpan): (m: Int32)
    ensures -0x8000_0000 * MICROS_PER_MINUTE < t.span < 0x8000_0000 * MICROS_PER_MINUTE
      ==> WholeUnits(t.span, MICROS_PER_MINUTE, m)
  {
    QuotientFits(t.span, MICROS_PER_MINUTE);
    TotalIn(t, MICROS_PER_MINUTE)
  }

  /** The whole hours in the span, counted toward zero, whenever an int holds them. */
  function GetTotalHours(t: TimeSpan): (h: Int32)
    ensures -0x8000_0000 * MICROS_PER_HOUR < t.span < 0x8000_0000 * MICROS_PER_HOUR
      ==> WholeUnits(t.span, MICROS_PER_HOUR, h)
  {
    QuotientFits(t.span, MICROS_PER_HOUR);
    TotalIn(t, MICROS_PER_HOUR)
  }

  /** The whole days in the span, counted toward zero; every sint64 span has few enough to fit an int. */
  function GetTotalDays(t: TimeSpan): (d: Int32)
    ensures WholeUnits(t.span, MICROS_PER_DAY, d)
  {
    QuotientFits(t.span, MICROS_PER_DAY);
    TotalIn(t, MICROS_PER_DAY)
  }

  /** For a non-negative span each total is the microsecond count divided by the unit, when it fits. */
  lemma TotalsOfNonNegative(t: TimeSpan)
    requires t.span >= 0
    ensures GetTotalMicroSeconds(t) == t.span
    ensures GetTotalMilliSeconds(t) == t.span / MICROS_PER_MILLI
    ensures t.span / MICROS_PER_SECOND < 0x8000_0000 ==> GetTotalSeconds(t) == t.span / MICROS_PER_SECOND
    ensures t.span / MICROS_PER_MINUTE < 0x8000_0000 ==> GetTotalMinutes(t) == t.span / MICROS_PER_MINUTE
    ensures t.span / MICROS_PER_HOUR < 0x8000_0000 ==> GetTotalHours(t) == t.span / MICROS_PER_HOUR
    ensures GetTotalDays(t) == t.span / MICROS_PER_DAY
  {
  }

  /** The getters truncate toward zero: negating the span negates every total that fits. */
  lemma TotalsTruncateTowardZero(t: TimeSpan, unit: nat)
    requires unit > 0 && t.span > -0x8000_0000_0000_0000
    ensures TruncDiv(-t.span, unit) == -TruncDiv(t.span, unit)
  {
  }

  /** A span built from whole seconds reports those seconds back. */
  lemma TotalSecondsOfSeconds(seconds: Int32)
    ensures GetTotalSeconds(FromSeconds(seconds, 0, 0)) == seconds
    ensures GetTotalMilliSeconds(FromSeconds(seconds, 0, 0)) == seconds * 1000
  {
    if seconds >= 0 {
      DivExact(seconds, MICROS_PER_SECOND);
      DivExact(seconds * 1000, MICROS_PER_MILLI);
    } else {
      DivExact(-(seconds as int), MICROS_PER_SECOND);
      DivExact(-(seconds as int) * 1000, MICROS_PER_MILLI);
    }
  }

  /** A span built from whole days (few enough to fit) reports those days back. */
  lemma TotalDaysOfDays(days: Int32)
    requires -106_751_991 <= days <= 106_751_991
    ensures GetTotalDays(FromParts(days, 0, 0, 0, 0, 0)) == days
  {
    assert PartsTotal(days, 0, 0, 0, 0, 0) == days * MICROS_PER_DAY;
    if days >= 0 {
      DivExact(days, MICROS_PER_DAY);
    } else {
      DivExact(-(days as int), MICROS_PER_DAY);
    }
  }

  lemma DivExact(k: nat, unit: nat)
    requires unit > 0
    ensures (k * unit) / unit == k
  {
    ModUnique(k * unit, unit, k, 0);
    assert k * unit == ((k * unit) / unit) * unit + (k * unit) % unit;
    assert ((k * unit) / unit - k) * unit == 0;
  }

  // ---------------------------------------------------------------------------
  // Arithmetic
  // ---------------------------------------------------------------------------

  /** operator +: the sum of the microsecond counts, wrapping on overflow. */
  function Add(a: TimeSpan, b: TimeSpan): (r: TimeSpan)
    ensures -0x8000_0000_0000_0000 <= a.span + b.span < 0x8000_0000_0000_0000 ==> r.span == a.span + b.span
  {
    TimeSpan(CastInt64(a.span + b.span))
  }

  /** operator -: the difference of the microsecond counts, wrapping on overflow. */
  function Sub(a: TimeSpan, b: TimeSpan): (r: TimeSpan)
    ensures -0x8000_0000_0000_0000 <= a.span - b.span < 0x8000_0000_0000_0000 ==> r.span == a.span - b.span
  {
    TimeSpan(CastInt64(a.span - b.span))
  }

  /** `a += b; a -= b` and `a -= b; a += b` give back `a`, even across a wrap-around. */
  lemma SubUndoesAdd(a: TimeSpan, b: TimeSpan)
    ensures Sub(Add(a, b), b) == a
    ensures Add(Sub(a, b), b) == a
  {
    var k := CastInt64Offset(a.span + b.span);
    CastInt64Shift(a.span, k);
    var j := CastInt64Offset(a.span - b.span);
    CastInt64Shift(a.span, j);
  }

  lemma AddCommutes(a: TimeSpan, b: TimeSpan)
    ensures Add(a, b) == Add(b, a)
  {
  }

  lemma AddAssociates(a: TimeSpan, b: TimeSpan, c: TimeSpan)
    ensures Add(Add(a, b), c) == Add(a, Add(b, c))
  {
    var sum := a.span + b.span + c.span;
    var k := CastInt64Offset(a.span + b.span);
    assert Add(Add(a, b), c).span == CastInt64(sum + k * INT64_MODULUS);
    CastInt64Shift(sum, k);
    var j := CastInt64Offset(b.span + c.span);
    assert Add(a, Add(b, c)).span == CastInt64(sum + j * INT64_MODULUS);
    CastInt64Shift(sum, j);
  }

  lemma ZeroIsNeutral(a: TimeSpan)
    ensures Add(a, Zero()) == a && Sub(a, Zero()) == a && Sub(a, a) == Zero()
  {
  }

  // ---------------------------------------------------------------------------
  // Comparisons
  // ---------------------------------------------------------------------------

  /** operator ==: compares the microsecond counts, which is the same as comparing the spans. */
  function Eq(a: TimeSpan, b: TimeSpan): (r: bool)
    ensures r <==> a == b
  {
    a.span == b.span
  }

  /** operator !=: the negation of ==. */
  function Ne(a: TimeSpan, b: TimeSpan): (r: bool)
    ensures r <==> !Eq(a, b)
  {
    a.span != b.span
  }

  /** operator <: `a` is earlier; when the difference fits, exactly when b - a is positive. */
  function Lt(a: TimeSpan, b: TimeSpan): (r: bool)
    ensures -0x8000_0000_0000_0000 <= b.span - a.span < 0x8000_0000_0000_0000 ==> (r <==> Sub(b, a).span > 0)
  {
    a.span < b.span
  }

  /** operator >: < with its operands swapped. */
  function Gt(a: TimeSpan, b: TimeSpan): (r: bool)
    ensures r <==> Lt(b, a)
  {
    a.span > b.span
  }

  /** operator <=: not >. */
  function Le(a: TimeSpan, b: TimeSpan): (r: bool)
    ensures r <==> !Lt(b, a)
  {
    a.span <= b.span
  }

  /** operator >=: not <. */
  function Ge(a: TimeSpan, b: TimeSpan): (r: bool)
    ensures r <==> !Lt(a, b)
  {
    a.span >= b.span
  }

  /** Exactly one of <, ==, > holds, and the others are their combinations. */
  lemma Trichotomy(a: TimeSpan, b: TimeSpan)
    ensures Lt(a, b) || Eq(a, b) || Gt(a, b)
    ensures !(Lt(a, b) && Eq(a, b)) && !(Lt(a, b) && Gt(a, b)) && !(Eq(a, b) && Gt(a, b))
    ensures Le(a, b) <==> Lt(a, b) || Eq(a, b)
    ensures Ge(a, b) <==> Gt(a, b) || Eq(a, b)
  {
  }

  lemma LeTransitive(a: TimeSpan, b: TimeSpan, c: TimeSpan)
    requires Le(a, b) && Le(b, c)
    ensures Le(a, c)
  {
  }

  /** Adding a non-negative span without overflow never goes backwards. */
  lemma AddMonotone(a: TimeSpan, b: TimeSpan)
    requires b.span >= 0 && a.span + b.span < 0x8000_0000_0000_0000
    ensures Le(a, Add(a, b))
  {
  }

  // ---------------------------------------------------------------------------
  // Serialization
  // ---------------------------------------------------------------------------

  /** The bytes Serialize writes: the span as a signed 64-bit integer in the stream's byte order. */
  function SpanBytes(t: TimeSpan, e: Endian): (bs: seq<Byte>)
    ensures |bs| == 8
  {
    EncodeInt(t.span, 8, e)
  }

  /** The span DeSerialize reads from eight bytes. */
  function SpanOfBytes(bs: seq<Byte>, e: Endian): (t: TimeSpan)
    requires |bs| == 8
  {
    Pow256Widths();
    ToSignedRange(DecodeUInt(bs, e), 8);
    TimeSpan(DecodeInt(bs, e))
  }

  lemma SpanBytesRoundTrip(t: TimeSpan, e: Endian)
    ensures SpanOfBytes(SpanBytes(t, e), e) == t
  {
    Pow256Widths();
    DecodeEncodeInt(t.span, 8, e);
  }

  lemma SpanOfBytesRoundTrip(bs: seq<Byte>, e: Endian)
    requires |bs| == 8
    ensures SpanBytes(SpanOfBytes(bs, e), e) == bs
  {
    Pow256Widths();
    var u := DecodeUInt(bs, e);
    ModUnique(DecodeInt(bs, e), Pow256(8), if 2 * u >= Pow256(8) then -1 else 0, u);
    EncodeDecodeUInt(bs, e);
  }

  method Serialize(t: TimeSpan, stream: Stream)
    requires stream.Valid()
    modifies stream
    ensures stream.Valid()
    ensures stream.buf == Overwrite(old(stream.buf), old(stream.pos), SpanBytes(t, stream.endian))
    ensures stream.pos == old(stream.pos) + 8 && stream.endian == old(stream.endian)
  {
    stream.WriteInt(t.span, 8);
  }

  /** Reads a span; when fewer than eight bytes remain it fails and the span and cursor keep their values. */
  method DeSerialize(t: TimeSpan, stream: Stream) returns (ok: bool, t': TimeSpan)
    requires stream.Valid()
    modifies stream
    ensures stream.Valid()
    ensures ok <==> old(stream.pos) + 8 <= |stream.buf|
    ensures ok ==> t' == SpanOfBytes(stream.buf[old(stream.pos)..old(stream.pos) + 8], stream.endian)
    ensures !ok ==> t' == t
    ensures stream.pos == if ok then old(stream.pos) + 8 else old(stream.pos)
    ensures stream.buf == old(stream.buf) && stream.endian == old(stream.endian)
  {
    var bytes := stream.ReadBuffer(8);
    match bytes
    case None =>
      ok, t' := false, t;
    case Some(bs) =>
      ok, t' := true, SpanOfBytes(bs, stream.endian);
  }

  /**
   * Serialize then DeSerialize from the same position: the eight bytes Serialize
   * leaves at `pos` are all there for DeSerialize, which reads back an equal span.
   */
  lemma SerializeRoundTrip(t: TimeSpan, buf: seq<Byte>, pos: nat, e: Endian)
    requires pos <= |buf|
    ensures pos + 8 <= |Overwrite(buf, pos, SpanBytes(t, e))|
    ensures SpanOfBytes(Overwrite(buf, pos, SpanBytes(t, e))[pos..pos + 8], e) == t
  {
    SpanBytesRoundTrip(t, e);
  }
}
