/**
 * What the Python stream writes for each Python value and what it reads back
 * for each requested type, as pure functions of the buffer, the cursor and the
 * byte order.  The class in PyStreamModel is proved against these functions.
 */
module PyCodec {
  import opened Bytes

  /** The Python values the stream encodes (Python 2 object kinds). */
  datatype PyValue =
    | PyNone
    | PyBool(flag: bool)
    | PyInt(i: Int64)            // a Python int holds a C long (64 bits)
    | PyLong(l: int)             // arbitrary precision
    | PyFloat(bits: UInt64)      // an IEEE double, kept as its bit pattern
    | PyStr(bytes: seq<Byte>)
    | PyByteArray(bytes: seq<Byte>)
    | PyBuffer(bytes: seq<Byte>)
    | PyTuple(items: seq<PyValue>)
    | PyList(items: seq<PyValue>)
    | PySequence(items: seq<PyValue>)
    | PyDict(entries: seq<DictEntry>)   // in the dictionary's iteration order
  {
    predicate IsSequence()
    {
      PyTuple? || PyList? || PySequence?
    }
  }

  datatype DictEntry = DictEntry(key: PyValue, value: PyValue)

  /** The class argument of Read: a built-in type, or a user class that has no `decode` method. */
  datatype PyKind =
    | NoneKind | BoolKind | IntKind | LongKind | FloatKind | StrKind
    | ByteArrayKind | BufferKind | TupleKind | ListKind | DictKind | OtherClass

  /** LLBC_ERROR_LIMIT, _INVALID, _NOT_IMPL, _NOT_FOUND, and a Python exception passed on. */
  datatype ErrorKind = Limit | Invalid | NotImpl | NotFound | PythonError

  datatype Status = Success | Failure(error: ErrorKind)

  datatype Result<T> = Ok(value: T) | Err(error: ErrorKind)

  /** The bytes a write puts at the cursor (also when it fails part-way) and its status. */
  datatype Emitted = Emitted(bytes: seq<Byte>, status: Status)

  /** The outcome of a read and where it leaves the cursor. */
  datatype Decoded = Decoded(result: Result<PyValue>, pos: nat)

  const HEADER_SIZE: nat := 4

  predicate InLongRange(x: int)
  {
    -0x8000_0000_0000_0000 <= x < 0x8000_0000_0000_0000
  }

  /** PyInt_AsLong and PyArg_Parse(..., "L"): the C long a value converts to. */
  function AsLong(v: PyValue): (r: Result<Int64>)
    ensures r.Ok? <==> v.PyBool? || v.PyInt? || (v.PyLong? && InLongRange(v.l))
    ensures r.Ok? && v.PyInt? ==> r.value == v.i
    ensures r.Ok? && v.PyLong? ==> r.value == v.l
    ensures r.Err? ==> r.error == PythonError
  {
    match v
    case PyBool(b) => Ok(if b then 1 else 0)
    case PyInt(i) => Ok(i)
    case PyLong(l) => if InLongRange(l) then Ok(l) else Err(PythonError)
    case _ => Err(PythonError)
  }

  /** PyString_AsStringAndSize: the bytes of a str; any other object raises TypeError. */
  function AsString(v: PyValue): (r: Result<seq<Byte>>)
    ensures r.Ok? <==> v.PyStr?
    ensures r.Ok? ==> r.value == v.bytes
  {
    if v.PyStr? then Ok(v.bytes) else Err(PythonError)
  }

  /** PyObject_AsReadBuffer: the bytes of a str, bytearray or buffer. */
  function AsReadBuffer(v: PyValue): (r: Result<seq<Byte>>)
    ensures r.Ok? <==> v.PyStr? || v.PyByteArray? || v.PyBuffer?
    ensures r.Ok? ==> r.value == v.bytes
  {
    if v.PyStr? || v.PyByteArray? || v.PyBuffer? then Ok(v.bytes) else Err(PythonError)
  }

  function BoolByte(b: bool): Byte
  {
    if b then 1 else 0
  }

  /** A 4-byte signed length or count header. */
  function LengthHeader(len: nat, e: Endian): seq<Byte>
  {
    EncodeInt(len, HEADER_SIZE, e)
  }

  /** An LLBC string on the wire: a 4-byte unsigned length, then the bytes. */
  function StringBytes(s: seq<Byte>, e: Endian): seq<Byte>
  {
    EncodeUInt(|s|, HEADER_SIZE, e) + s
  }

  /** WriteStr2, WriteByteArray and WriteBuffer: a signed 4-byte length, then the bytes. */
  function BlobBytes(s: seq<Byte>, e: Endian): seq<Byte>
  {
    LengthHeader(|s|, e) + s
  }

  function Fail(k: ErrorKind): Emitted
  {
    Emitted([], Failure(k))
  }

  // ---------------------------------------------------------------------------
  // Writing
  // ---------------------------------------------------------------------------

  /** WriteInt16/32/64: convert to a C long, cast to `n` bytes, store in byte order `e`. */
  function EmitInt(v: PyValue, n: nat, e: Endian): (out: Emitted)
    ensures out.status.Success? <==> AsLong(v).Ok?
    ensures out.status.Success? ==> |out.bytes| == n
    ensures out.status.Success? ==> DecodeInt(out.bytes, e) == ToSigned(Wrap(AsLong(v).value, n), n)
    ensures out.status.Failure? ==> out == Fail(PythonError)
  {
    match AsLong(v)
    case Ok(x) =>
      DecodeEncodeInt(x, n, e);
      Emitted(EncodeInt(x, n, e), Success)
    case Err(k) => Fail(k)
  }

  /** WriteStr: an LLBC string of the str's bytes. */
  function EmitStr(v: PyValue, e: Endian): Emitted
  {
    match AsString(v)
    case Ok(s) => Emitted(StringBytes(s, e), Success)
    case Err(k) => Fail(k)
  }

  /** WriteStr2: a signed 4-byte length cast from the str's length, then its bytes. */
  function EmitStr2(v: PyValue, e: Endian): Emitted
  {
    match AsString(v)
    case Ok(s) => Emitted(BlobBytes(s, e), Success)
    case Err(k) => Fail(k)
  }

  /** WriteBuffer: a signed 4-byte length, then the bytes (none when empty). */
  function EmitBuffer(v: PyValue, e: Endian): Emitted
  {
    match AsReadBuffer(v)
    case Ok(s) => Emitted(BlobBytes(s, e), Success)
    case Err(k) => Fail(k)
  }

  /** Write: dispatch on the value's type. */
  function Emit(v: PyValue, e: Endian): Emitted
    decreases v, 1
  {
    match v
    case PyNone => Emitted([], Success)
    case PyBool(b) => Emitted([BoolByte(b)], Success)
    case PyInt(_) => EmitInt(v, 4, e)
    case PyLong(_) => EmitInt(v, 8, e)
    case PyFloat(bits) => Emitted(EncodeUInt(bits, 8, e), Success)
    case PyStr(_) => EmitStr(v, e)
    case PyByteArray(s) => Emitted(BlobBytes(s, e), Success)
    case PyBuffer(_) => EmitBuffer(v, e)
    case PyTuple(_) => EmitSequence(v, e)
    case PyList(_) => EmitSequence(v, e)
    case PySequence(_) => EmitSequence(v, e)
    case PyDict(_) => EmitDict(v, e)
  }

  /** WriteSequence: the element count, then the elements, stopping after the first that fails. */
  function EmitSequence(v: PyValue, e: Endian): Emitted
    requires v.IsSequence()
    decreases v, 0, |v.items| + 1
  {
    var body := EmitItems(v, |v.items|, e);
    Emitted(LengthHeader(|v.items|, e) + body.bytes, body.status)
  }

  /** The first `n` elements of a sequence, written one after another until one fails. */
  function EmitItems(v: PyValue, n: nat, e: Endian): Emitted
    requires v.IsSequence() && n <= |v.items|
    decreases v, 0, n
  {
    if n == 0 then Emitted([], Success)
    else
      var done := EmitItems(v, n - 1, e);
      if done.status.Failure? then done
      else
        var last := Emit(v.items[n - 1], e);
        Emitted(done.bytes + last.bytes, last.status)
  }

  /** WriteDict: the entry count, then key (as a str) and value of each entry, stopping at the first failure. */
  function EmitDict(v: PyValue, e: Endian): Emitted
    requires v.PyDict?
    decreases v, 0, |v.entries| + 1
  {
    var body := EmitEntries(v, |v.entries|, e);
    Emitted(LengthHeader(|v.entries|, e) + body.bytes, body.status)
  }

  function EmitEntries(v: PyValue, n: nat, e: Endian): Emitted
    requires v.PyDict? && n <= |v.entries|
    decreases v, 0, n
  {
    if n == 0 then Emitted([], Success)
    else
      var done := EmitEntries(v, n - 1, e);
      if done.status.Failure? then done
      else
        var key := EmitStr(v.entries[n - 1].key, e);
        if key.status.Failure? then Emitted(done.bytes, key.status)
        else
          var value := Emit(v.entries[n - 1].value, e);
          Emitted(done.bytes + key.bytes + value.bytes, value.status)
  }

  /** The low byte of a C long: the first byte in memory on a little-endian machine. */
  function LowByte(x: int): Byte
  {
    x % 0x100
  }

  function FirstByte(s: seq<Byte>): (r: Result<Byte>)
    ensures r.Ok? <==> |s| >= 1
    ensures r.Ok? ==> r.value == s[0]
    ensures r.Err? ==> r.error == Limit
  {
    if |s| < 1 then Err(Limit) else Ok(s[0])
  }

  /**
   * The byte WriteByte writes, as the source is written: the first byte of a str,
   * bytearray or buffer (LIMIT when empty), a bool as 0 or 1, the low byte of an
   * int or long, NOT_IMPL for anything else.  For a long outside the C long range
   * PyLong_AsLong returns -1 and raises, and the source writes that -1 anyway.
   */
  function ByteOfAsWritten(v: PyValue): (r: Result<Byte>)
    ensures v.PyLong? && !InLongRange(v.l) ==> r == Ok(0xFF)
  {
    match v
    case PyStr(s) => FirstByte(s)
    case PyByteArray(s) => FirstByte(s)
    case PyBuffer(s) => FirstByte(s)
    case PyBool(b) => Ok(BoolByte(b))
    case PyInt(i) => Ok(LowByte(i))
    case PyLong(l) => Ok(LowByte(if InLongRange(l) then l else -1))
    case _ => Err(NotImpl)
  }

  /** The byte WriteByte should write: as written, except that a failed long conversion fails. */
  function ByteOf(v: PyValue): (r: Result<Byte>)
    ensures v.PyStr? || v.PyByteArray? || v.PyBuffer? ==> r == FirstByte(v.bytes)
    ensures v.PyBool? || v.PyInt? || v.PyLong? ==>
      r == match AsLong(v) { case Ok(x) => Ok(LowByte(x)) case Err(k) => Err(k) }
    ensures !(v.PyStr? || v.PyByteArray? || v.PyBuffer? || v.PyBool? || v.PyInt? || v.PyLong?) ==> r == Err(NotImpl)
  {
    if v.PyLong? && !InLongRange(v.l) then Err(PythonError) else ByteOfAsWritten(v)
  }

  // ---------------------------------------------------------------------------
  // Reading
  // ---------------------------------------------------------------------------

  /** An `n`-byte signed integer at `pos`, when `n` bytes remain. */
  function SignedAt(buf: seq<Byte>, pos: nat, n: nat, e: Endian): (r: Option<int>)
    ensures r.Some? <==> pos + n <= |buf|
    ensures r.Some? ==> InSignedRange(r.value, n)
  {
    match ReadAt(buf, pos, n)
    case Some(bs) =>
      ToSignedRange(DecodeUInt(bs, e), n);
      Some(DecodeInt(bs, e))
    case None => None
  }

  /** A fixed-width read: `n` bytes made into a value, or LIMIT with the cursor unmoved. */
  function DecodeFixed(buf: seq<Byte>, pos: nat, n: nat, make: seq<Byte> -> PyValue): (d: Decoded)
    ensures d.result.Ok? <==> pos + n <= |buf|
    ensures d.result.Ok? ==> d.pos == pos + n && d.result.value == make(buf[pos..pos + n])
    ensures d.result.Err? ==> d == Decoded(Err(Limit), pos)
  {
    match ReadAt(buf, pos, n)
    case Some(bs) => Decoded(Ok(make(bs)), pos + n)
    case None => Decoded(Err(Limit), pos)
  }

  /** ReadByte: one byte, as a one-character str. */
  function DecodeByte(buf: seq<Byte>, pos: nat): Decoded
  {
    DecodeFixed(buf, pos, 1, bs => PyStr(bs))
  }

  /**
   * ReadBool: one byte; any non-zero byte reads as True.  DecodeFixed only
   * passes exactly one byte; the length test lets `bs[0]` be well formed.
   */
  function DecodeBool(buf: seq<Byte>, pos: nat): Decoded
  {
    DecodeFixed(buf, pos, 1, bs => PyBool(|bs| == 1 && bs[0] != 0))
  }

  function SignedValue(bs: seq<Byte>, e: Endian): (x: Int64)
  {
    CastInt64(DecodeInt(bs, e))
  }

  /** ReadInt16 and ReadInt32: a signed integer of that width, as a Python int. */
  function DecodeSmallInt(buf: seq<Byte>, pos: nat, n: nat, e: Endian): Decoded
  {
    DecodeFixed(buf, pos, n, bs => PyInt(SignedValue(bs, e)))
  }

  /** ReadInt64: a signed 64-bit integer, as a Python long. */
  function DecodeInt64(buf: seq<Byte>, pos: nat, e: Endian): Decoded
  {
    DecodeFixed(buf, pos, 8, bs => PyLong(DecodeInt(bs, e)))
  }

  /**
   * ReadDouble: eight bytes, kept as the bit pattern of the double.  DecodeFixed
   * only passes exactly eight bytes; the length test makes the value a 64-bit pattern.
   */
  function DecodeDouble(buf: seq<Byte>, pos: nat, e: Endian): Decoded
  {
    DecodeFixed(buf, pos, 8, bs => PyFloat(if |bs| == 8 then DecodeUInt(bs, e) else 0))
  }

  /** ReadStr: an LLBC string, read all or nothing. */
  function DecodeStr(buf: seq<Byte>, pos: nat, e: Endian): (d: Decoded)
    ensures d.result.Err? ==> d == Decoded(Err(Limit), pos)
  {
    match ReadAt(buf, pos, HEADER_SIZE)
    case None => Decoded(Err(Limit), pos)
    case Some(h) =>
      var len := DecodeUInt(h, e);
      match ReadAt(buf, pos + HEADER_SIZE, len)
      case None => Decoded(Err(Limit), pos)
      case Some(s) => Decoded(Ok(PyStr(s)), pos + HEADER_SIZE + len)
  }

  /** The length check ReadStr2 performs, as written: the remaining byte count, cast to int, is below `len`. */
  predicate Str2RejectsAsWritten(remaining: nat, len: int)
    ensures remaining < 0x8000_0000 && len < 0 ==> !Str2RejectsAsWritten(remaining, len)
  {
    CastInt32(remaining) < len
  }

  /** The length check ReadStr2 needs: a negative length or one beyond the remaining bytes. */
  predicate Str2Rejects(remaining: nat, len: int)
    ensures !Str2Rejects(remaining, len) ==> 0 <= len <= remaining
    ensures remaining < 0x8000_0000 ==> (Str2Rejects(remaining, len) <==> len < 0 || remaining < len)
  {
    len < 0 || Str2RejectsAsWritten(remaining, len)
  }

  /**
   * ReadStr2: a signed 4-byte length, then that many bytes as a str.  The header
   * is consumed even when the length is then refused.
   */
  function DecodeStr2(buf: seq<Byte>, pos: nat, e: Endian): (d: Decoded)
    ensures pos + HEADER_SIZE > |buf| ==> d == Decoded(Err(Limit), pos)
    ensures pos + HEADER_SIZE <= |buf| ==> d.pos >= pos + HEADER_SIZE
    ensures d.result.Ok? ==> d.result.value.PyStr? && d.pos == pos + HEADER_SIZE + |d.result.value.bytes|
  {
    match SignedAt(buf, pos, HEADER_SIZE, e)
    case None => Decoded(Err(Limit), pos)
    case Some(len) =>
      var start := pos + HEADER_SIZE;
      if Str2Rejects(|buf| - start, len) then Decoded(Err(Limit), start)
      else Decoded(Ok(PyStr(buf[start..start + len])), start + len)
  }

  /**
   * ReadByteArray and ReadBuffer: a signed 4-byte length, then that many bytes.
   * A short payload is LIMIT after the header has been consumed.  A negative
   * length is LIMIT for a bytearray and a Python error (from PyBuffer_New) for a buffer.
   */
  function DecodeBlob(buf: seq<Byte>, pos: nat, e: Endian, asBuffer: bool): (d: Decoded)
    ensures pos + HEADER_SIZE > |buf| ==> d == Decoded(Err(Limit), pos)
    ensures pos + HEADER_SIZE <= |buf| ==> d.pos >= pos + HEADER_SIZE
  {
    match SignedAt(buf, pos, HEADER_SIZE, e)
    case None => Decoded(Err(Limit), pos)
    case Some(len) =>
      var start := pos + HEADER_SIZE;
      if len < 0 then Decoded(Err(if asBuffer then PythonError else Limit), start)
      else
        match ReadAt(buf, start, len)
        case None => Decoded(Err(Limit), start)
        case Some(s) => Decoded(Ok(if asBuffer then PyBuffer(s) else PyByteArray(s)), start + len)
  }

  /** Read: dispatch on the requested class. */
  function DecodeValue(kind: PyKind, buf: seq<Byte>, pos: nat, e: Endian): (d: Decoded)
    ensures kind == TupleKind || kind == ListKind || kind == DictKind ==> d == Decoded(Err(NotImpl), pos)
    ensures kind == OtherClass ==> d == Decoded(Err(NotFound), pos)
  {
    match kind
    case NoneKind => Decoded(Ok(PyNone), pos)
    case BoolKind => DecodeBool(buf, pos)
    case IntKind => DecodeSmallInt(buf, pos, 4, e)
    case LongKind => DecodeInt64(buf, pos, e)
    case FloatKind => DecodeDouble(buf, pos, e)
    case StrKind => DecodeStr(buf, pos, e)
    case ByteArrayKind => DecodeBlob(buf, pos, e, false)
    case BufferKind => DecodeBlob(buf, pos, e, true)
    case TupleKind => Decoded(Err(NotImpl), pos)
    case ListKind => Decoded(Err(NotImpl), pos)
    case DictKind => Decoded(Err(NotImpl), pos)
    case OtherClass => Decoded(Err(NotFound), pos)
  }
}
