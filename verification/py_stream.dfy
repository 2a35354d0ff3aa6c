/**
 * The Python-facing stream object: a wrapper around one byte stream that
 * writes Python values at the cursor and reads them back by requested type.
 * Every read and write is proved against the pure encoding functions of
 * PyCodec; the cursor, size, byte-order and raw-buffer accessors state their
 * effect on the stream directly.
 */
module PyStreamModel {
  import opened Bytes
  import opened LlbcStream
  import opened PyCodec
  import PyCodecProperties

  class PyStream {
    const stream: Stream

    ghost predicate Valid()
      reads stream
    {
      stream.Valid()
    }

    /** The stream now holds `out` written at `pos0` over `buf0`, with the cursor just past it. */
    ghost predicate Wrote(buf0: seq<Byte>, pos0: nat, out: seq<Byte>)
      reads stream
    {
      pos0 <= |buf0| && stream.buf == Overwrite(buf0, pos0, out) && stream.pos == pos0 + |out|
    }

    /** A stream of `size` bytes, cursor at 0. */
    constructor (size: nat, endian: Endian)
      ensures Valid() && fresh(stream)
      ensures |stream.buf| == size && stream.pos == 0 && stream.endian == endian
    {
      stream := new Stream(size, endian);
    }

    function GetEndian(): (code: int)
      reads stream
      ensures EndianFromCode(code) == Some(stream.endian)
    {
      EndianCode(stream.endian)
    }

    /** The cursor, which never lies beyond the end of the buffer. */
    function GetPos(): (p: nat)
      reads stream
      ensures Valid() ==> p <= |stream.buf|
    {
      stream.pos
    }

    /** The buffer's size, which is never below the cursor. */
    function GetSize(): (n: nat)
      reads stream
      ensures Valid() ==> stream.pos <= n
    {
      |stream.buf|
    }

    /** The bytes written so far: everything before the cursor. */
    function GetRaw(): (raw: seq<Byte>)
      requires Valid()
      reads stream
      ensures |raw| == GetPos() && raw == stream.buf[..GetPos()]
    {
      stream.buf[..stream.pos]
    }

    /** Only the endian codes 0 and 1 are accepted; any other code is INVALID and changes nothing. */
    method SetEndian(code: int) returns (st: Status)
      requires Valid()
      modifies stream
      ensures Valid()
      ensures st == Success <==> EndianFromCode(code).Some?
      ensures st.Failure? ==> st.error == Invalid
      ensures stream.endian == if st == Success then EndianFromCode(code).value else old(stream.endian)
      ensures GetEndian() == if st == Success then code else old(GetEndian())
      ensures stream.buf == old(stream.buf) && stream.pos == old(stream.pos)
    {
      match EndianFromCode(code)
      case None =>
        st := Failure(Invalid);
      case Some(e) =>
        stream.SetEndian(e);
        st := Success;
    }

    /** The cursor may be put anywhere up to the end of the buffer; beyond it is LIMIT. */
    method SetPos(p: nat) returns (st: Status)
      requires Valid()
      modifies stream
      ensures Valid()
      ensures st == Success <==> p <= old(GetSize())
      ensures st.Failure? ==> st.error == Limit
      ensures stream.pos == if st == Success then p else old(stream.pos)
      ensures stream.buf == old(stream.buf) && stream.endian == old(stream.endian)
    {
      if p > |stream.buf| {
        st := Failure(Limit);
      } else {
        stream.SetPos(p);
        st := Success;
      }
    }

    /** The size may only grow: a size not above the current one is LIMIT. */
    method SetSize(n: nat) returns (st: Status)
      requires Valid()
      modifies stream
      ensures Valid()
      ensures st == Success <==> n > old(GetSize())
      ensures st.Failure? ==> st.error == Limit && stream.buf == old(stream.buf)
      ensures st == Success ==> GetSize() == n && stream.buf[..old(GetSize())] == old(stream.buf)
      ensures GetRaw() == old(GetRaw())
      ensures stream.pos == old(stream.pos) && stream.endian == old(stream.endian)
    {
      if n <= |stream.buf| {
        st := Failure(Limit);
      } else {
        stream.Resize(n);
        st := Success;
      }
    }

    /**
     * Rewinds to 0 and writes the bytes of a str, bytearray or buffer; anything
     * else is INVALID and changes nothing.  Bytes beyond the new raw data stay.
     */
    method SetRaw(raw: PyValue) returns (st: Status)
      requires Valid()
      modifies stream
      ensures Valid()
      ensures st == Success <==> AsReadBuffer(raw).Ok?
      ensures st.Failure? ==> st.error == Invalid && stream.buf == old(stream.buf) && stream.pos == old(stream.pos)
      ensures st == Success ==> Wrote(old(stream.buf), 0, raw.bytes) && GetRaw() == raw.bytes
      ensures stream.endian == old(stream.endian)
    {
      match AsReadBuffer(raw)
      case Err(_) =>
        st := Failure(Invalid);
      case Ok(bytes) =>
        stream.SetPos(0);
        stream.WriteBuffer(bytes);
        st := Success;
    }

    // -------------------------------------------------------------------------
    // Reading
    // -------------------------------------------------------------------------

    method ReadNone() returns (r: Result<PyValue>)
      ensures r == Ok(PyNone)
    {
      r := Ok(PyNone);
    }

    /** A fixed-width read of `n` bytes made into a value: LIMIT and no movement when too few remain. */
    method ReadFixed(n: nat, make: seq<Byte> -> PyValue) returns (r: Result<PyValue>)
      requires Valid()
      modifies stream
      ensures Valid()
      ensures Decoded(r, stream.pos) == DecodeFixed(old(stream.buf), old(stream.pos), n, make)
      ensures stream.buf == old(stream.buf) && stream.endian == old(stream.endian)
    {
      var bytes := stream.ReadBuffer(n);
      match bytes
      case None => r := Err(Limit);
      case Some(bs) => r := Ok(make(bs));
    }

    method ReadByte() returns (r: Result<PyValue>)
      requires Valid()
      modifies stream
      ensures Valid()
      ensures Decoded(r, stream.pos) == DecodeByte(old(stream.buf), old(stream.pos))
      ensures stream.buf == old(stream.buf) && stream.endian == old(stream.endian)
    {
      r := ReadFixed(1, bs => PyStr(bs));
    }

    method ReadBool() returns (r: Result<PyValue>)
      requires Valid()
      modifies stream
      ensures Valid()
      ensures Decoded(r, stream.pos) == DecodeBool(old(stream.buf), old(stream.pos))
      ensures stream.buf == old(stream.buf) && stream.endian == old(stream.endian)
    {
      r := ReadFixed(1, bs => PyBool(|bs| == 1 && bs[0] != 0));
    }

    /** ReadInt16 and ReadInt32: a signed `n`-byte integer as a Python int. */
    method ReadSmallInt(n: nat) returns (r: Result<PyValue>)
      requires Valid()
      modifies stream
      ensures Valid()
      ensures Decoded(r, stream.pos) == DecodeSmallInt(old(stream.buf), old(stream.pos), n, stream.endian)
      ensures stream.buf == old(stream.buf) && stream.endian == old(stream.endian)
    {
      var x := stream.ReadInt(n);
      match x
      case None => r := Err(Limit);
      case Some(value) => r := Ok(PyInt(CastInt64(value)));
    }

    method ReadInt16() returns (r: Result<PyValue>)
      requires Valid()
      modifies stream
      ensures Valid()
      ensures Decoded(r, stream.pos) == DecodeSmallInt(old(stream.buf), old(stream.pos), 2, stream.endian)
      ensures stream.buf == old(stream.buf) && stream.endian == old(stream.endian)
    {
      r := ReadSmallInt(2);
    }

    method ReadInt32() returns (r: Result<PyValue>)
      requires Valid()
      modifies stream
      ensures Valid()
      ensures Decoded(r, stream.pos) == DecodeSmallInt(old(stream.buf), old(stream.pos), 4, stream.endian)
      ensures stream.buf == old(stream.buf) && stream.endian == old(stream.endian)
    {
      r := ReadSmallInt(4);
    }

    method ReadInt64() returns (r: Result<PyValue>)
      requires Valid()
      modifies stream
      ensures Valid()
      ensures Decoded(r, stream.pos) == DecodeInt64(old(stream.buf), old(stream.pos), stream.endian)
      ensures stream.buf == old(stream.buf) && stream.endian == old(stream.endian)
    {
      var x := stream.ReadInt(8);
      match x
      case None => r := Err(Limit);
      case Some(value) => r := Ok(PyLong(value));
    }

    method ReadDouble() returns (r: Result<PyValue>)
      requires Valid()
      modifies stream
      ensures Valid()
      ensures Decoded(r, stream.pos) == DecodeDouble(old(stream.buf), old(stream.pos), stream.endian)
      ensures stream.buf == old(stream.buf) && stream.endian == old(stream.endian)
    {
      var x := stream.ReadUInt(8);
      match x
      case None => r := Err(Limit);
      case Some(bits) => r := Ok(PyFloat(bits));
    }

    /** An LLBC string, all or nothing: the cursor stays put unless the whole string is there. */
    method ReadStr() returns (r: Result<PyValue>)
      requires Valid()
      modifies stream
      ensures Valid()
      ensures Decoded(r, stream.pos) == DecodeStr(old(stream.buf), old(stream.pos), stream.endian)
      ensures stream.buf == old(stream.buf) && stream.endian == old(stream.endian)
    {
      var start := stream.pos;
      var len := stream.ReadUInt(HEADER_SIZE);
      if len.None? {
        return Err(Limit);
      }
      var s := stream.ReadBuffer(len.value);
      if s.None? {
        stream.SetPos(start);
        return Err(Limit);
      }
      r := Ok(PyStr(s.value));
    }

    /** A signed 4-byte length and then that many bytes; the header stays consumed when the length is refused. */
    method ReadStr2() returns (r: Result<PyValue>)
      requires Valid()
      modifies stream
      ensures Valid()
      ensures Decoded(r, stream.pos) == DecodeStr2(old(stream.buf), old(stream.pos), stream.endian)
      ensures stream.buf == old(stream.buf) && stream.endian == old(stream.endian)
    {
      var len := stream.ReadInt(HEADER_SIZE);
      if len.None? {
        return Err(Limit);
      }
      if Str2Rejects(|stream.buf| - stream.pos, len.value) {
        return Err(Limit);
      }
      var s := stream.buf[stream.pos..stream.pos + len.value];
      stream.Skip(len.value);
      r := Ok(PyStr(s));
    }

    /** ReadByteArray (`asBuffer` false) and ReadBuffer (`asBuffer` true). */
    method ReadBlob(asBuffer: bool) returns (r: Result<PyValue>)
      requires Valid()
      modifies stream
      ensures Valid()
      ensures Decoded(r, stream.pos) == DecodeBlob(old(stream.buf), old(stream.pos), stream.endian, asBuffer)
      ensures stream.buf == old(stream.buf) && stream.endian == old(stream.endian)
    {
      var len := stream.ReadInt(HEADER_SIZE);
      if len.None? {
        return Err(Limit);
      }
      if len.value < 0 {
        return Err(if asBuffer then PythonError else Limit);
      }
      var s := stream.ReadBuffer(len.value);
      match s
      case None => r := Err(Limit);
      case Some(bytes) => r := Ok(if asBuffer then PyBuffer(bytes) else PyByteArray(bytes));
    }

    method ReadByteArray() returns (r: Result<PyValue>)
      requires Valid()
      modifies stream
      ensures Valid()
      ensures Decoded(r, stream.pos) == DecodeBlob(old(stream.buf), old(stream.pos), stream.endian, false)
      ensures stream.buf == old(stream.buf) && stream.endian == old(stream.endian)
    {
      r := ReadBlob(false);
    }

    method ReadBuffer() returns (r: Result<PyValue>)
      requires Valid()
      modifies stream
      ensures Valid()
      ensures Decoded(r, stream.pos) == DecodeBlob(old(stream.buf), old(stream.pos), stream.endian, true)
      ensures stream.buf == old(stream.buf) && stream.endian == old(stream.endian)
    {
      r := ReadBlob(true);
    }

    /** Read(cls): dispatch on the requested class. */
    method Read(kind: PyKind) returns (r: Result<PyValue>)
      requires Valid()
      modifies stream
      ensures Valid()
      ensures Decoded(r, stream.pos) == DecodeValue(kind, old(stream.buf), old(stream.pos), stream.endian)
      ensures stream.buf == old(stream.buf) && stream.endian == old(stream.endian)
    {
      match kind
      case NoneKind => r := ReadNone();
      case BoolKind => r := ReadBool();
      case IntKind => r := ReadInt32();
      case LongKind => r := ReadInt64();
      case FloatKind => r := ReadDouble();
      case StrKind => r := ReadStr();
      case ByteArrayKind => r := ReadByteArray();
      case BufferKind => r := ReadBuffer();
      case TupleKind => r := Err(NotImpl);
      case ListKind => r := Err(NotImpl);
      case DictKind => r := Err(NotImpl);
      case OtherClass => r := Err(NotFound);
    }

    // -------------------------------------------------------------------------
    // Writing
    // -------------------------------------------------------------------------

    method WriteNone(v: PyValue) returns (st: Status)
      requires Valid()
      modifies stream
      ensures Valid()
      ensures st == Success && Wrote(old(stream.buf), old(stream.pos), [])
      ensures stream.endian == old(stream.endian)
    {
      st := Success;
    }

    /** WriteByte: one byte taken from the value, with the long conversion checked. */
    method WriteByte(v: PyValue) returns (st: Status)
      requires Valid()
      modifies stream
      ensures Valid()
      ensures st == Success <==> ByteOf(v).Ok?
      ensures st.Failure? ==> st.error == ByteOf(v).error && Wrote(old(stream.buf), old(stream.pos), [])
      ensures st == Success ==> Wrote(old(stream.buf), old(stream.pos), [ByteOf(v).value])
      ensures stream.endian == old(stream.endian)
    {
      match ByteOf(v)
      case Err(k) =>
        st := Failure(k);
      case Ok(b) =>
        stream.WriteBuffer([b]);
        st := Success;
    }

    /** WriteBool: one byte, 1 for a true value and 0 for a false one. */
    method WriteBool(truth: bool) returns (st: Status)
      requires Valid()
      modifies stream
      ensures Valid()
      ensures st == Success && Wrote(old(stream.buf), old(stream.pos), [BoolByte(truth)])
      ensures stream.endian == old(stream.endian)
    {
      stream.WriteBuffer([BoolByte(truth)]);
      st := Success;
    }

    /** WriteInt16/32/64: the value converted to a C long and cast to `n` bytes. */
    method WriteInt(v: PyValue, n: nat) returns (st: Status)
      requires Valid()
      modifies stream
      ensures Valid()
      ensures st == EmitInt(v, n, old(stream.endian)).status
      ensures Wrote(old(stream.buf), old(stream.pos), EmitInt(v, n, old(stream.endian)).bytes)
      ensures stream.endian == old(stream.endian)
    {
      match AsLong(v)
      case Err(k) =>
        st := Failure(k);
      case Ok(x) =>
        stream.WriteInt(x, n);
        st := Success;
    }

    method WriteInt16(v: PyValue) returns (st: Status)
      requires Valid()
      modifies stream
      ensures Valid()
      ensures st == EmitInt(v, 2, old(stream.endian)).status
      ensures Wrote(old(stream.buf), old(stream.pos), EmitInt(v, 2, old(stream.endian)).bytes)
      ensures stream.endian == old(stream.endian)
    {
      st := WriteInt(v, 2);
    }

    method WriteInt32(v: PyValue) returns (st: Status)
      requires Valid()
      modifies stream
      ensures Valid()
      ensures st == EmitInt(v, 4, old(stream.endian)).status
      ensures Wrote(old(stream.buf), old(stream.pos), EmitInt(v, 4, old(stream.endian)).bytes)
      ensures stream.endian == old(stream.endian)
    {
      st := WriteInt(v, 4);
    }

    method WriteInt64(v: PyValue) returns (st: Status)
      requires Valid()
      modifies stream
      ensures Valid()
      ensures st == EmitInt(v, 8, old(stream.endian)).status
      ensures Wrote(old(stream.buf), old(stream.pos), EmitInt(v, 8, old(stream.endian)).bytes)
      ensures stream.endian == old(stream.endian)
    {
      st := WriteInt(v, 8);
    }

    /** WriteDouble: the eight bytes of the double, given by its bit pattern. */
    method WriteDouble(bits: UInt64) returns (st: Status)
      requires Valid()
      modifies stream
      ensures Valid()
      ensures st == Success && Wrote(old(stream.buf), old(stream.pos), EncodeUInt(bits, 8, old(stream.endian)))
      ensures stream.endian == old(stream.endian)
    {
      stream.WriteUInt(bits, 8);
      st := Success;
    }

    method WriteStr(v: PyValue) returns (st: Status)
      requires Valid()
      modifies stream
      ensures Valid()
      ensures st == EmitStr(v, old(stream.endian)).status
      ensures Wrote(old(stream.buf), old(stream.pos), EmitStr(v, old(stream.endian)).bytes)
      ensures stream.endian == old(stream.endian)
    {
      match AsString(v)
      case Err(k) =>
        st := Failure(k);
      case Ok(s) =>
        stream.WriteUInt(|s|, HEADER_SIZE);
        OverwriteConcat(old(stream.buf), old(stream.pos), EncodeUInt(|s|, HEADER_SIZE, stream.endian), s);
        stream.WriteBuffer(s);
        st := Success;
    }

    /** Writes a signed 4-byte length, then `s`. */
    method WriteBlob(s: seq<Byte>)
      requires Valid()
      modifies stream
      ensures Valid()
      ensures Wrote(old(stream.buf), old(stream.pos), BlobBytes(s, old(stream.endian)))
      ensures stream.endian == old(stream.endian)
    {
      stream.WriteInt(|s|, HEADER_SIZE);
      OverwriteConcat(old(stream.buf), old(stream.pos), LengthHeader(|s|, stream.endian), s);
      if |s| > 0 {
        stream.WriteBuffer(s);
      }
    }

    method WriteStr2(v: PyValue) returns (st: Status)
      requires Valid()
      modifies stream
      ensures Valid()
      ensures st == EmitStr2(v, old(stream.endian)).status
      ensures Wrote(old(stream.buf), old(stream.pos), EmitStr2(v, old(stream.endian)).bytes)
      ensures stream.endian == old(stream.endian)
    {
      match AsString(v)
      case Err(k) =>
        st := Failure(k);
      case Ok(s) =>
        WriteBlob(s);
        st := Success;
    }

    /** The source reads the bytearray's storage without checking its type: callers pass a bytearray. */
    method WriteByteArray(v: PyValue) returns (st: Status)
      requires Valid() && v.PyByteArray?
      modifies stream
      ensures Valid()
      ensures st == Success && Wrote(old(stream.buf), old(stream.pos), BlobBytes(v.bytes, old(stream.endian)))
      ensures stream.endian == old(stream.endian)
    {
      WriteBlob(v.bytes);
      st := Success;
    }

    method WriteBuffer(v: PyValue) returns (st: Status)
      requires Valid()
      modifies stream
      ensures Valid()
      ensures st == EmitBuffer(v, old(stream.endian)).status
      ensures Wrote(old(stream.buf), old(stream.pos), EmitBuffer(v, old(stream.endian)).bytes)
      ensures stream.endian == old(stream.endian)
    {
      match AsReadBuffer(v)
      case Err(k) =>
        st := Failure(k);
      case Ok(s) =>
        WriteBlob(s);
        st := Success;
    }

    /** Write(obj): dispatch on the value's type. */
    method Write(v: PyValue) returns (st: Status)
      requires Valid()
      modifies stream
      decreases v, 2
      ensures Valid()
      ensures st == Emit(v, old(stream.endian)).status
      ensures Wrote(old(stream.buf), old(stream.pos), Emit(v, old(stream.endian)).bytes)
      ensures stream.endian == old(stream.endian)
    {
      match v
      case PyNone => st := WriteNone(v);
      case PyBool(b) => st := WriteBool(b);
      case PyInt(_) => st := WriteInt32(v);
      case PyLong(_) => st := WriteInt64(v);
      case PyFloat(bits) => st := WriteDouble(bits);
      case PyStr(_) => st := WriteStr(v);
      case PyByteArray(_) => st := WriteByteArray(v);
      case PyBuffer(_) => st := WriteBuffer(v);
      case PyTuple(_) => st := WriteSequence(v);
      case PyList(_) => st := WriteSequence(v);
      case PySequence(_) => st := WriteSequence(v);
      case PyDict(_) => st := WriteDict(v);
    }

    /** The element count, then each element in order; returns at the first element that fails. */
    method WriteSequence(v: PyValue) returns (st: Status)
      requires Valid() && v.IsSequence()
      modifies stream
      decreases v, 1
      ensures Valid()
      ensures st == EmitSequence(v, old(stream.endian)).status
      ensures Wrote(old(stream.buf), old(stream.pos), EmitSequence(v, old(stream.endian)).bytes)
      ensures stream.endian == old(stream.endian)
    {
      ghost var buf0, pos0, e := stream.buf, stream.pos, stream.endian;
      var len := |v.items|;
      stream.WriteInt(len, HEADER_SIZE);
      var i := 0;
      while i < len
        invariant 0 <= i <= len && Valid() && stream.endian == e
        invariant EmitItems(v, i, e).status == Success
        invariant Wrote(buf0, pos0, LengthHeader(len, e) + EmitItems(v, i, e).bytes)
      {
        st := WriteItem(v, i, buf0, pos0, e);
        if st.Failure? {
          PyCodecProperties.EmitItemsStable(v, i + 1, len, e);
          return;
        }
        i := i + 1;
      }
      st := Success;
    }

    /** One step of WriteSequence: element `i` written after the count and the elements before it. */
    method WriteItem(v: PyValue, i: nat, ghost buf0: seq<Byte>, ghost pos0: nat, ghost e: Endian) returns (st: Status)
      requires Valid() && v.IsSequence() && i < |v.items| && stream.endian == e
      requires EmitItems(v, i, e).status == Success
      requires Wrote(buf0, pos0, LengthHeader(|v.items|, e) + EmitItems(v, i, e).bytes)
      modifies stream
      decreases v, 0
      ensures Valid() && stream.endian == e
      ensures st == EmitItems(v, i + 1, e).status
      ensures Wrote(buf0, pos0, LengthHeader(|v.items|, e) + EmitItems(v, i + 1, e).bytes)
    {
      st := Write(v.items[i]);
      PyCodecProperties.EmitItemsNext(v, i, e);
      OverwriteAppend(buf0, pos0, LengthHeader(|v.items|, e), EmitItems(v, i, e).bytes, Emit(v.items[i], e).bytes);
    }

    /** The entry count, then each key (as a str) and value; returns at the first key or value that fails. */
    method WriteDict(v: PyValue) returns (st: Status)
      requires Valid() && v.PyDict?
      modifies stream
      decreases v, 1
      ensures Valid()
      ensures st == EmitDict(v, old(stream.endian)).status
      ensures Wrote(old(stream.buf), old(stream.pos), EmitDict(v, old(stream.endian)).bytes)
      ensures stream.endian == old(stream.endian)
    {
      ghost var buf0, pos0, e := stream.buf, stream.pos, stream.endian;
      var len := |v.entries|;
      stream.WriteInt(len, HEADER_SIZE);
      var i := 0;
      while i < len
        invariant 0 <= i <= len && Valid() && stream.endian == e
        invariant EmitEntries(v, i, e).status == Success
        invariant Wrote(buf0, pos0, LengthHeader(len, e) + EmitEntries(v, i, e).bytes)
      {
        st := WriteEntry(v, i, buf0, pos0, e);
        if st.Failure? {
          PyCodecProperties.EmitEntriesStable(v, i + 1, len, e);
          return;
        }
        i := i + 1;
      }
      st := Success;
    }

    /** One step of WriteDict: the key of entry `i` as a str, then, if that worked, its value. */
    method WriteEntry(v: PyValue, i: nat, ghost buf0: seq<Byte>, ghost pos0: nat, ghost e: Endian) returns (st: Status)
      requires Valid() && v.PyDict? && i < |v.entries| && stream.endian == e
      requires EmitEntries(v, i, e).status == Success
      requires Wrote(buf0, pos0, LengthHeader(|v.entries|, e) + EmitEntries(v, i, e).bytes)
      modifies stream
      decreases v, 0, 1
      ensures Valid() && stream.endian == e
      ensures st == EmitEntries(v, i + 1, e).status
      ensures Wrote(buf0, pos0, LengthHeader(|v.entries|, e) + EmitEntries(v, i + 1, e).bytes)
    {
      ghost var header, done := LengthHeader(|v.entries|, e), EmitEntries(v, i, e).bytes;
      PyCodecProperties.EmitEntriesNext(v, i, e);
      st := WriteStr(v.entries[i].key);
      if st.Failure? {
        assert header + done + EmitStr(v.entries[i].key, e).bytes == header + done;
        return;
      }
      OverwriteAppend(buf0, pos0, header, done, EmitStr(v.entries[i].key, e).bytes);
      st := WriteEntryValue(v, i, buf0, pos0, e);
    }

    /** The value of entry `i`, written after its key. */
    method WriteEntryValue(v: PyValue, i: nat, ghost buf0: seq<Byte>, ghost pos0: nat, ghost e: Endian) returns (st: Status)
      requires Valid() && v.PyDict? && i < |v.entries| && stream.endian == e
      requires EmitEntries(v, i, e).status == Success && EmitStr(v.entries[i].key, e).status == Success
      requires Wrote(buf0, pos0, LengthHeader(|v.entries|, e)
                                 + (EmitEntries(v, i, e).bytes + EmitStr(v.entries[i].key, e).bytes))
      modifies stream
      decreases v, 0, 0
      ensures Valid() && stream.endian == e
      ensures st == EmitEntries(v, i + 1, e).status
      ensures Wrote(buf0, pos0, LengthHeader(|v.entries|, e) + EmitEntries(v, i + 1, e).bytes)
    {
      ghost var header, done, key := LengthHeader(|v.entries|, e), EmitEntries(v, i, e).bytes, EmitStr(v.entries[i].key, e).bytes;
      PyCodecProperties.EmitEntriesNext(v, i, e);
      var entry := v.entries[i];
      assert entry < v;
      st := Write(entry.value);
      OverwriteAppend(buf0, pos0, header, done + key, Emit(entry.value, e).bytes);
      assert done + key + Emit(entry.value, e).bytes == done + (key + Emit(entry.value, e).bytes);
    }
  }
}
