/**
 * Properties of the Python stream's encodings: what Write puts down, Read gets
 * back; container writes lay out a count and then their elements in order and
 * stop at the first element that fails; the length checks of the readers.
 */
module PyCodecProperties {
  import opened Bytes
  import opened PyCodec

  /** The class Read is given to read back a value of this kind. */
  function KindOf(v: PyValue): PyKind
  {
    match v
    case PyNone => NoneKind
    case PyBool(_) => BoolKind
    case PyInt(_) => IntKind
    case PyLong(_) => LongKind
    case PyFloat(_) => FloatKind
    case PyStr(_) => StrKind
    case PyByteArray(_) => ByteArrayKind
    case PyBuffer(_) => BufferKind
    case PyTuple(_) => TupleKind
    case PyList(_) => ListKind
    case PySequence(_) => OtherClass
    case PyDict(_) => DictKind
  }

  /** Values that Write can write and Read can read back: lengths must fit their headers. */
  predicate Readable(v: PyValue)
  {
    match v
    case PyNone => true
    case PyBool(_) => true
    case PyInt(_) => true
    case PyLong(l) => InLongRange(l)
    case PyFloat(_) => true
    case PyStr(s) => |s| < 0x1_0000_0000
    case PyByteArray(s) => |s| < 0x8000_0000
    case PyBuffer(s) => |s| < 0x8000_0000
    case _ => false
  }

  /** What Read returns for a written value: an int was written as 32 bits and comes back cast. */
  function ReadBack(v: PyValue): PyValue
  {
    if v.PyInt? then PyInt(CastInt32(v.i)) else v
  }

  lemma ReadBackInt(i: Int64)
    ensures ReadBack(PyInt(i)) == PyInt(i) <==> -0x8000_0000 <= i < 0x8000_0000
  {
  }

  /** Read(type(v)) right after Write(v), from the same position, returns v and ends where the write ended. */
  lemma WriteThenRead(v: PyValue, buf: seq<Byte>, pos: nat, e: Endian)
    requires Readable(v) && pos <= |buf|
    ensures Emit(v, e).status == Success
    ensures DecodeValue(KindOf(v), Overwrite(buf, pos, Emit(v, e).bytes), pos, e)
         == Decoded(Ok(ReadBack(v)), pos + |Emit(v, e).bytes|)
  {
    if v.PyStr? || v.PyByteArray? || v.PyBuffer? {
      WriteThenReadBytes(v, buf, pos, e);
    } else {
      WriteThenReadScalar(v, buf, pos, e);
    }
  }

  lemma WriteThenReadScalar(v: PyValue, buf: seq<Byte>, pos: nat, e: Endian)
    requires Readable(v) && pos <= |buf|
    requires v.PyNone? || v.PyBool? || v.PyInt? || v.PyLong? || v.PyFloat?
    ensures Emit(v, e).status == Success
    ensures DecodeValue(KindOf(v), Overwrite(buf, pos, Emit(v, e).bytes), pos, e)
         == Decoded(Ok(ReadBack(v)), pos + |Emit(v, e).bytes|)
  {
    match v
    case PyNone =>
    case PyBool(b) =>
      assert Emit(v, e) == Emitted([BoolByte(b)], Success);
      BoolRoundTrip(b, buf, pos, e);
    case PyInt(i) =>
      assert Emit(v, e) == Emitted(EncodeInt(i, 4, e), Success);
      IntRoundTrip(i, buf, pos, e);
    case PyLong(l) =>
      assert Emit(v, e) == Emitted(EncodeInt(l, 8, e), Success);
      LongRoundTrip(l, buf, pos, e);
    case PyFloat(bits) =>
      assert Emit(v, e) == Emitted(EncodeUInt(bits, 8, e), Success);
      FloatRoundTrip(bits, buf, pos, e);
  }

  lemma WriteThenReadBytes(v: PyValue, buf: seq<Byte>, pos: nat, e: Endian)
    requires Readable(v) && pos <= |buf|
    requires v.PyStr? || v.PyByteArray? || v.PyBuffer?
    ensures Emit(v, e).status == Success
    ensures DecodeValue(KindOf(v), Overwrite(buf, pos, Emit(v, e).bytes), pos, e)
         == Decoded(Ok(ReadBack(v)), pos + |Emit(v, e).bytes|)
  {
    match v
    case PyStr(s) =>
      assert Emit(v, e) == Emitted(StringBytes(s, e), Success);
      StrRoundTrip(s, buf, pos, e);
    case PyByteArray(s) =>
      assert Emit(v, e) == Emitted(BlobBytes(s, e), Success);
      BlobRoundTrip(s, buf, pos, e);
    case PyBuffer(s) =>
      assert Emit(v, e) == Emitted(BlobBytes(s, e), Success);
      BlobRoundTrip(s, buf, pos, e);
  }

  lemma FixedReadBack(buf: seq<Byte>, pos: nat, out: seq<Byte>)
    requires pos <= |buf|
    ensures ReadAt(Overwrite(buf, pos, out), pos, |out|) == Some(out)
  {
  }

  lemma BoolRoundTrip(b: bool, buf: seq<Byte>, pos: nat, e: Endian)
    requires pos <= |buf|
    ensures DecodeBool(Overwrite(buf, pos, [BoolByte(b)]), pos) == Decoded(Ok(PyBool(b)), pos + 1)
  {
    FixedReadBack(buf, pos, [BoolByte(b)]);
  }

  /** An int goes out as 32 bits and comes back as the C cast of it to int32. */
  lemma IntRoundTrip(i: Int64, buf: seq<Byte>, pos: nat, e: Endian)
    requires pos <= |buf|
    ensures DecodeSmallInt(Overwrite(buf, pos, EncodeInt(i, 4, e)), pos, 4, e)
         == Decoded(Ok(PyInt(CastInt32(i))), pos + 4)
  {
    Pow256Widths();
    FixedReadBack(buf, pos, EncodeInt(i, 4, e));
    DecodeEncodeInt(i, 4, e);
    ToSignedRange(Wrap(i, 4), 4);
  }

  lemma LongRoundTrip(l: Int64, buf: seq<Byte>, pos: nat, e: Endian)
    requires pos <= |buf|
    ensures DecodeInt64(Overwrite(buf, pos, EncodeInt(l, 8, e)), pos, e) == Decoded(Ok(PyLong(l)), pos + 8)
  {
    Pow256Widths();
    FixedReadBack(buf, pos, EncodeInt(l, 8, e));
    DecodeEncodeInt(l, 8, e);
  }

  lemma FloatRoundTrip(bits: UInt64, buf: seq<Byte>, pos: nat, e: Endian)
    requires pos <= |buf|
    ensures DecodeDouble(Overwrite(buf, pos, EncodeUInt(bits, 8, e)), pos, e) == Decoded(Ok(PyFloat(bits)), pos + 8)
  {
    Pow256Widths();
    FixedReadBack(buf, pos, EncodeUInt(bits, 8, e));
    DecodeEncodeUInt(bits, 8, e);
  }

  lemma StrRoundTrip(s: seq<Byte>, buf: seq<Byte>, pos: nat, e: Endian)
    requires |s| < 0x1_0000_0000 && pos <= |buf|
    ensures DecodeStr(Overwrite(buf, pos, StringBytes(s, e)), pos, e) == Decoded(Ok(PyStr(s)), pos + HEADER_SIZE + |s|)
  {
    Pow256Widths();
    ReadBackWritten(buf, pos, EncodeUInt(|s|, HEADER_SIZE, e), s);
    DecodeEncodeUInt(|s|, HEADER_SIZE, e);
  }

  lemma BlobRoundTrip(s: seq<Byte>, buf: seq<Byte>, pos: nat, e: Endian)
    requires |s| < 0x8000_0000 && pos <= |buf|
    ensures ReadAt(Overwrite(buf, pos, BlobBytes(s, e)), pos, HEADER_SIZE) == Some(LengthHeader(|s|, e))
    ensures SignedAt(Overwrite(buf, pos, BlobBytes(s, e)), pos, HEADER_SIZE, e) == Some(|s|)
    ensures ReadAt(Overwrite(buf, pos, BlobBytes(s, e)), pos + HEADER_SIZE, |s|) == Some(s)
    ensures DecodeBlob(Overwrite(buf, pos, BlobBytes(s, e)), pos, e, false) == Decoded(Ok(PyByteArray(s)), pos + HEADER_SIZE + |s|)
    ensures DecodeBlob(Overwrite(buf, pos, BlobBytes(s, e)), pos, e, true) == Decoded(Ok(PyBuffer(s)), pos + HEADER_SIZE + |s|)
  {
    Pow256Widths();
    ReadBackWritten(buf, pos, LengthHeader(|s|, e), s);
    DecodeEncodeInt(|s|, HEADER_SIZE, e);
  }

  /**
   * ReadStr2 after WriteStr2(s), from the same position, returns s and advances by 4 + |s|,
   * as long as the buffer is under 2 GiB (ReadStr2 casts the remaining byte count to int).
   */
  lemma Str2RoundTrip(s: seq<Byte>, buf: seq<Byte>, pos: nat, e: Endian)
    requires |s| < 0x8000_0000 && pos <= |buf| < 0x8000_0000
    ensures EmitStr2(PyStr(s), e).status == Success
    ensures DecodeStr2(Overwrite(buf, pos, EmitStr2(PyStr(s), e).bytes), pos, e)
         == Decoded(Ok(PyStr(s)), pos + HEADER_SIZE + |s|)
  {
    BlobRoundTrip(s, buf, pos, e);
    var w := Overwrite(buf, pos, BlobBytes(s, e));
    assert Str2Rejects(|w| - pos - HEADER_SIZE, |s|) == false;
  }

  /** ReadStr2 with fewer bytes after the header than it declares: LIMIT, with the header consumed. */
  lemma Str2ShortPayload(buf: seq<Byte>, pos: nat, e: Endian)
    requires pos + HEADER_SIZE <= |buf|
    requires |buf| - pos - HEADER_SIZE < DecodeInt(buf[pos..pos + HEADER_SIZE], e)
    ensures DecodeStr2(buf, pos, e) == Decoded(Err(Limit), pos + HEADER_SIZE)
  {
  }

  /** ReadByteArray and ReadBuffer with a short payload: LIMIT, with the header consumed. */
  lemma BlobShortPayload(buf: seq<Byte>, pos: nat, e: Endian, asBuffer: bool)
    requires pos + HEADER_SIZE <= |buf|
    requires 0 <= |buf| - pos - HEADER_SIZE < DecodeInt(buf[pos..pos + HEADER_SIZE], e)
    ensures DecodeBlob(buf, pos, e, asBuffer) == Decoded(Err(Limit), pos + HEADER_SIZE)
  {
  }

  /** The source's ReadStr2 check lets a negative length through; the model's check refuses it. */
  lemma Str2NegativeLength()
    ensures !Str2RejectsAsWritten(0, -1)
    ensures Str2Rejects(0, -1)
  {
  }

  /** WriteByte on a long too large for a C long: as written it writes 0xFF and succeeds. */
  lemma WriteByteOverflow()
    ensures ByteOfAsWritten(PyLong(0x8000_0000_0000_0000)) == Ok(0xFF)
    ensures ByteOf(PyLong(0x8000_0000_0000_0000)) == Err(PythonError)
  {
  }

  // ---------------------------------------------------------------------------
  // Containers
  // ---------------------------------------------------------------------------

  function Flatten(parts: seq<seq<Byte>>): seq<Byte>
  {
    if parts == [] then [] else Flatten(parts[..|parts| - 1]) + parts[|parts| - 1]
  }

  /** What each of the first `n` elements writes on its own. */
  function ItemBytes(v: PyValue, n: nat, e: Endian): (r: seq<seq<Byte>>)
    requires v.IsSequence() && n <= |v.items|
    ensures |r| == n
  {
    seq(n, k requires 0 <= k < n => Emit(v.items[k], e).bytes)
  }

  /** Element `k` is the first whose write fails. */
  predicate FailsFirstAt(v: PyValue, k: nat, e: Endian)
    requires v.IsSequence()
  {
    && k < |v.items|
    && Emit(v.items[k], e).status.Failure?
    && forall j :: 0 <= j < k ==> Emit(v.items[j], e).status.Success?
  }

  lemma EmitItemsNext(v: PyValue, i: nat, e: Endian)
    requires v.IsSequence() && i < |v.items| && EmitItems(v, i, e).status == Success
    ensures EmitItems(v, i + 1, e)
         == Emitted(EmitItems(v, i, e).bytes + Emit(v.items[i], e).bytes, Emit(v.items[i], e).status)
  {
  }

  lemma EmitEntriesNext(v: PyValue, i: nat, e: Endian)
    requires v.PyDict? && i < |v.entries| && EmitEntries(v, i, e).status == Success
    ensures EmitStr(v.entries[i].key, e).status.Failure? ==>
      EmitEntries(v, i + 1, e) == Emitted(EmitEntries(v, i, e).bytes, EmitStr(v.entries[i].key, e).status)
    ensures EmitStr(v.entries[i].key, e).status.Success? ==>
      EmitEntries(v, i + 1, e) == Emitted(EmitEntries(v, i, e).bytes + (EmitStr(v.entries[i].key, e).bytes
                                          + Emit(v.entries[i].value, e).bytes), Emit(v.entries[i].value, e).status)
  {
    var k := EmitStr(v.entries[i].key, e).bytes;
    assert EmitEntries(v, i, e).bytes + k + Emit(v.entries[i].value, e).bytes
        == EmitEntries(v, i, e).bytes + (k + Emit(v.entries[i].value, e).bytes);
  }

  /** Writing the first `n` elements succeeds exactly when each of them does. */
  lemma {:induction false} EmitItemsSucceedsIff(v: PyValue, n: nat, e: Endian)
    requires v.IsSequence() && n <= |v.items|
    ensures EmitItems(v, n, e).status.Success?
        <==> forall k :: 0 <= k < n ==> Emit(v.items[k], e).status.Success?
  {
    if n > 0 {
      EmitItemsSucceedsIff(v, n - 1, e);
    }
  }

  /** On success the elements' encodings follow one another in index order. */
  lemma {:induction false} EmitItemsBytes(v: PyValue, n: nat, e: Endian)
    requires v.IsSequence() && n <= |v.items|
    requires EmitItems(v, n, e).status.Success?
    ensures EmitItems(v, n, e).bytes == Flatten(ItemBytes(v, n, e))
  {
    if n > 0 {
      EmitItemsBytes(v, n - 1, e);
      assert ItemBytes(v, n, e)[..n - 1] == ItemBytes(v, n - 1, e);
    }
  }

  /**
   * On failure, the elements before the first failing one were written in full,
   * then whatever the failing one wrote; nothing is taken back and nothing after it is written.
   */
  lemma {:induction false} EmitItemsFirstFailure(v: PyValue, n: nat, e: Endian)
    requires v.IsSequence() && n <= |v.items|
    requires EmitItems(v, n, e).status.Failure?
    ensures exists k :: (0 <= k < n && FailsFirstAt(v, k, e)
      && EmitItems(v, n, e) == Emitted(Flatten(ItemBytes(v, k, e)) + Emit(v.items[k], e).bytes,
                                       Emit(v.items[k], e).status))
  {
    var done := EmitItems(v, n - 1, e);
    if done.status.Failure? {
      EmitItemsFirstFailure(v, n - 1, e);
      var k :| 0 <= k < n - 1 && FailsFirstAt(v, k, e)
        && done == Emitted(Flatten(ItemBytes(v, k, e)) + Emit(v.items[k], e).bytes, Emit(v.items[k], e).status);
      assert 0 <= k < n && FailsFirstAt(v, k, e);
    } else {
      EmitItemsSucceedsIff(v, n - 1, e);
      EmitItemsBytes(v, n - 1, e);
      assert FailsFirstAt(v, n - 1, e);
    }
  }

  /** Once a prefix has failed, writing more elements changes nothing. */
  lemma {:induction false} EmitItemsStable(v: PyValue, n: nat, m: nat, e: Endian)
    requires v.IsSequence() && n <= m <= |v.items|
    requires EmitItems(v, n, e).status.Failure?
    ensures EmitItems(v, m, e) == EmitItems(v, n, e)
  {
    if m > n {
      EmitItemsStable(v, n, m - 1, e);
    }
  }

  /** A written sequence starts with its element count, read back by a 4-byte signed read. */
  lemma SequenceLayout(v: PyValue, e: Endian)
    requires v.IsSequence() && |v.items| < 0x8000_0000
    ensures |Emit(v, e).bytes| >= HEADER_SIZE
    ensures DecodeInt(Emit(v, e).bytes[..HEADER_SIZE], e) == |v.items|
    ensures Emit(v, e).status.Success? ==>
      Emit(v, e).bytes[HEADER_SIZE..] == Flatten(ItemBytes(v, |v.items|, e))
  {
    Pow256Widths();
    var out := Emit(v, e);
    assert out == EmitSequence(v, e);
    assert out.bytes[..HEADER_SIZE] == LengthHeader(|v.items|, e);
    DecodeEncodeInt(|v.items|, HEADER_SIZE, e);
    if out.status.Success? {
      EmitItemsBytes(v, |v.items|, e);
    }
  }

  /** Writing the first `n` dictionary entries succeeds exactly when every key is a str and every value writes. */
  lemma {:induction false} EmitEntriesSucceedsIff(v: PyValue, n: nat, e: Endian)
    requires v.PyDict? && n <= |v.entries|
    ensures EmitEntries(v, n, e).status.Success?
        <==> forall k :: 0 <= k < n ==>
               v.entries[k].key.PyStr? && Emit(v.entries[k].value, e).status.Success?
  {
    if n > 0 {
      EmitEntriesSucceedsIff(v, n - 1, e);
    }
  }

  /** Once a prefix of the entries has failed, writing more entries changes nothing. */
  lemma {:induction false} EmitEntriesStable(v: PyValue, n: nat, m: nat, e: Endian)
    requires v.PyDict? && n <= m <= |v.entries|
    requires EmitEntries(v, n, e).status.Failure?
    ensures EmitEntries(v, m, e) == EmitEntries(v, n, e)
  {
    if m > n {
      EmitEntriesStable(v, n, m - 1, e);
    }
  }

  /** What one dictionary entry writes: its key as a str, then its value; nothing more once the key fails. */
  function EntryEmit(entry: DictEntry, e: Endian): (out: Emitted)
    ensures out.status.Success? <==> entry.key.PyStr? && Emit(entry.value, e).status.Success?
    ensures out.status.Success? ==> out.bytes == EmitStr(entry.key, e).bytes + Emit(entry.value, e).bytes
  {
    var key := EmitStr(entry.key, e);
    if key.status.Failure? then key
    else
      var value := Emit(entry.value, e);
      Emitted(key.bytes + value.bytes, value.status)
  }

  /** What each of the first `n` entries writes on its own. */
  function EntryBytes(v: PyValue, n: nat, e: Endian): (r: seq<seq<Byte>>)
    requires v.PyDict? && n <= |v.entries|
    ensures |r| == n
  {
    seq(n, k requires 0 <= k < n => EntryEmit(v.entries[k], e).bytes)
  }

  /** Entry `k` is the first whose key is not a str or whose value fails to write. */
  predicate EntryFailsFirstAt(v: PyValue, k: nat, e: Endian)
    requires v.PyDict?
  {
    && k < |v.entries|
    && EntryEmit(v.entries[k], e).status.Failure?
    && forall j :: 0 <= j < k ==> EntryEmit(v.entries[j], e).status.Success?
  }

  lemma EmitEntriesStep(v: PyValue, n: nat, e: Endian)
    requires v.PyDict? && 0 < n <= |v.entries| && EmitEntries(v, n - 1, e).status.Success?
    ensures EmitEntries(v, n, e) == Emitted(EmitEntries(v, n - 1, e).bytes + EntryEmit(v.entries[n - 1], e).bytes,
                                            EntryEmit(v.entries[n - 1], e).status)
  {
    var done := EmitEntries(v, n - 1, e);
    var key := EmitStr(v.entries[n - 1].key, e);
    if key.status.Success? {
      var value := Emit(v.entries[n - 1].value, e);
      assert done.bytes + key.bytes + value.bytes == done.bytes + (key.bytes + value.bytes);
    }
  }

  /** On success each entry's key and value encodings follow one another in entry order. */
  lemma {:induction false} EmitEntriesBytes(v: PyValue, n: nat, e: Endian)
    requires v.PyDict? && n <= |v.entries|
    requires EmitEntries(v, n, e).status.Success?
    ensures EmitEntries(v, n, e).bytes == Flatten(EntryBytes(v, n, e))
    ensures forall k :: 0 <= k < n ==>
      EntryBytes(v, n, e)[k] == EmitStr(v.entries[k].key, e).bytes + Emit(v.entries[k].value, e).bytes
  {
    if n > 0 {
      EmitEntriesSucceedsIff(v, n, e);
      EmitEntriesBytes(v, n - 1, e);
      EmitEntriesStep(v, n, e);
      assert EntryBytes(v, n, e)[..n - 1] == EntryBytes(v, n - 1, e);
    }
  }

  /**
   * On failure, the entries before the first failing one were written in full,
   * then whatever the failing one wrote; nothing is taken back and nothing after it is written.
   */
  lemma {:induction false} EmitEntriesFirstFailure(v: PyValue, n: nat, e: Endian)
    requires v.PyDict? && n <= |v.entries|
    requires EmitEntries(v, n, e).status.Failure?
    ensures exists k :: (0 <= k < n && EntryFailsFirstAt(v, k, e)
      && EmitEntries(v, n, e) == Emitted(Flatten(EntryBytes(v, k, e)) + EntryEmit(v.entries[k], e).bytes,
                                         EntryEmit(v.entries[k], e).status))
  {
    var done := EmitEntries(v, n - 1, e);
    if done.status.Failure? {
      EmitEntriesFirstFailure(v, n - 1, e);
      var k :| 0 <= k < n - 1 && EntryFailsFirstAt(v, k, e)
        && done == Emitted(Flatten(EntryBytes(v, k, e)) + EntryEmit(v.entries[k], e).bytes,
                           EntryEmit(v.entries[k], e).status);
      assert 0 <= k < n && EntryFailsFirstAt(v, k, e);
    } else {
      EmitEntriesSucceedsIff(v, n - 1, e);
      EmitEntriesBytes(v, n - 1, e);
      EmitEntriesStep(v, n, e);
      assert EntryFailsFirstAt(v, n - 1, e);
    }
  }

  /** A written dictionary starts with its entry count, read back by a 4-byte signed read. */
  lemma DictLayout(v: PyValue, e: Endian)
    requires v.PyDict? && |v.entries| < 0x8000_0000
    ensures |Emit(v, e).bytes| >= HEADER_SIZE
    ensures DecodeInt(Emit(v, e).bytes[..HEADER_SIZE], e) == |v.entries|
    ensures Emit(v, e).status.Success? ==>
      Emit(v, e).bytes[HEADER_SIZE..] == Flatten(EntryBytes(v, |v.entries|, e))
  {
    Pow256Widths();
    var out := Emit(v, e);
    assert out == EmitDict(v, e);
    assert out.bytes[..HEADER_SIZE] == LengthHeader(|v.entries|, e);
    DecodeEncodeInt(|v.entries|, HEADER_SIZE, e);
    if out.status.Success? {
      EmitEntriesBytes(v, |v.entries|, e);
    }
  }
}
