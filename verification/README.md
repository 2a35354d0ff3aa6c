# pyllbc stream and LLBC time span, in Dafny

This project models two pieces of the llbc framework.

- **The Python stream object (`pyllbc_Stream`).** It wraps one LLBC byte stream: a growable buffer with a single cursor and a byte order. It writes Python values at the cursor and reads them back by requested type. Supported values are None, bool, int, long, float, str, bytearray, buffer, tuple/list/sequence and dict. It also exposes cursor, size, byte-order and raw-buffer access.
- **The time span (`LLBC_TimeSpan`).** A signed 64-bit microsecond count with unit constructors, total getters, arithmetic, comparisons and serialization.

Files (modules):

- `bytes.dfy` (`Bytes`): bytes, fixed-width integers, two's-complement casts, and little- and big-endian encodings with their round trips. It also defines `Overwrite`, which writes at a cursor and grows the buffer when needed.
- `llbc_stream.dfy` (`LlbcStream`): the class `Stream`, which is the byte stream underneath. Its own source is not part of this model. The class states the behaviour the code above it relies on.
- `py_codec.dfy` (`PyCodec`): pure functions.
  - `Emit` gives the bytes and status a write of each value produces.
  - `Decode*` gives the value and new cursor a read of each type produces.
  - The WriteByte byte choice, and the ReadStr2 length check as written and as intended.
- `py_codec_properties.dfy` (`PyCodecProperties`): lemmas about those functions. They cover the write-then-read round trips, the short-payload errors, and the element-by-element layout of sequences and dictionaries, including stopping at the first failure.
- `py_stream.dfy` (`PyStreamModel`): the class `PyStream`. Its methods change the underlying stream in place. Every read and write is proved against the functions of `PyCodec`; the cursor, size, byte-order and raw-buffer accessors state their effect on the stream directly.
- `timespan.dfy` (`TimeSpanModel`): the time span as a datatype over an `Int64`, plus `Serialize`/`DeSerialize` methods on a `Stream`.

Assumptions about code that is not part of this model:

- **Writes.** `LLBC_Stream` writes overwrite at the cursor, grow the buffer to exactly the end of the write, and advance the cursor.
- **Reads.** A read of n bytes either takes all n and advances, or fails and leaves the cursor where it was.
- **Integers.** Integers are stored in the stream's byte order. Endian codes 0 and 1 are the valid ones.
- **Strings.** An `LLBC_String` is a 4-byte unsigned length followed by its bytes. Reading one is all or nothing: when the payload is shorter than the length, the read fails and the cursor goes back to before the length.
- **Python ints.** A Python `int` holds a 64-bit C long. `WriteByte` takes the first byte in memory of a `long`, which is the low byte on a little-endian machine.
- **Time-span arithmetic.** Constructors and operators compute in `sint64`. Signed overflow is undefined behaviour in C++; the model gives it two's-complement wrap-around (see "## Left out"). `Serialize` writes `_span` as an 8-byte signed integer.

## Model

| member | source | states |
|---|---|---|
| PyStreamModel.PyStream.constructor | wrap/pyllbc/src/common/PyStream.cpp:29-41 | a new stream has the requested size and its cursor at 0 |
| PyStreamModel.PyStream.GetPos | wrap/pyllbc/src/common/PyStream.cpp:65-68 | the cursor, which never lies beyond the end of the buffer |
| PyStreamModel.PyStream.GetSize | wrap/pyllbc/src/common/PyStream.cpp:83-86 | the buffer's size, never below the cursor |
| PyStreamModel.PyStream.GetEndian | wrap/pyllbc/src/common/PyStream.cpp:47-50 | the endian code returned is a valid code that denotes the stream's byte order |
| PyStreamModel.PyStream.SetEndian | wrap/pyllbc/src/common/PyStream.cpp:52-63 | succeeds exactly for a valid endian code, and GetEndian then returns it; any other code fails with INVALID and changes nothing |
| PyStreamModel.PyStream.SetPos | wrap/pyllbc/src/common/PyStream.cpp:70-81 | succeeds exactly when the position is at most the size and then moves the cursor there; otherwise LIMIT, with cursor and buffer unchanged |
| PyStreamModel.PyStream.SetSize | wrap/pyllbc/src/common/PyStream.cpp:88-99 | succeeds exactly when the new size is strictly larger, keeping the existing bytes; shrinking or the same size fails with LIMIT and leaves the buffer as it was; the raw bytes and cursor never change |
| PyStreamModel.PyStream.GetRaw | wrap/pyllbc/src/common/PyStream.cpp:118-122 | the bytes before the cursor, not up to the size |
| PyStreamModel.PyStream.SetRaw | wrap/pyllbc/src/common/PyStream.cpp:124-164 | succeeds exactly for str, bytearray or buffer; it rewinds to 0 and writes the bytes, after which GetRaw returns exactly them; anything else fails with INVALID and leaves the stream untouched |
| PyStreamModel.PyStream.Read | wrap/pyllbc/src/common/PyStream.cpp:166-215 | the result and the new cursor are those of DecodeValue for the requested class: tuple, list and dict are NOT_IMPL and a class without decode is NOT_FOUND, neither moving the cursor |
| PyCodec.DecodeValue | wrap/pyllbc/src/common/PyStream.cpp:166-215 | tuple, list and dict requests are NOT_IMPL and any other class is NOT_FOUND, both without moving the cursor |
| PyStreamModel.PyStream.ReadNone | wrap/pyllbc/src/common/PyStream.cpp:244-247 | returns None and reads nothing |
| PyStreamModel.PyStream.ReadByte | wrap/pyllbc/src/common/PyStream.cpp:249-259 | one byte as a one-character str; LIMIT without moving when the buffer is exhausted |
| PyStreamModel.PyStream.ReadBool | wrap/pyllbc/src/common/PyStream.cpp:261-274 | one byte, True when it is non-zero; LIMIT without moving when the buffer is exhausted |
| PyStreamModel.PyStream.ReadInt16 | wrap/pyllbc/src/common/PyStream.cpp:276-286 | two bytes as a signed int in the stream's byte order; LIMIT without moving when fewer remain |
| PyStreamModel.PyStream.ReadInt32 | wrap/pyllbc/src/common/PyStream.cpp:288-298 | four bytes as a signed int; LIMIT without moving when fewer remain |
| PyStreamModel.PyStream.ReadInt64 | wrap/pyllbc/src/common/PyStream.cpp:300-310 | eight bytes as a signed long; LIMIT without moving when fewer remain |
| PyStreamModel.PyStream.ReadDouble | wrap/pyllbc/src/common/PyStream.cpp:324-334 | eight bytes kept as a double's bit pattern; LIMIT without moving when fewer remain |
| PyStreamModel.PyStream.ReadStr | wrap/pyllbc/src/common/PyStream.cpp:347-357 | an LLBC string read all or nothing: on LIMIT the cursor has not moved (this rests on the assumed string read of the byte stream, see Strings above) |
| PyStreamModel.PyStream.ReadStr2 | wrap/pyllbc/src/common/PyStream.cpp:359-379 | follows the corrected length check Str2Rejects from "## Findings", not the code as written: the result and cursor are DecodeStr2's; a short header is LIMIT without moving; a refused length (including a negative one) is LIMIT with the header consumed |
| PyCodec.DecodeStr2 | wrap/pyllbc/src/common/PyStream.cpp:359-379 | uses the corrected check Str2Rejects from "## Findings" (a negative length is LIMIT, where the source calls PyString_FromStringAndSize with it): a short header is LIMIT at the same position; otherwise the header is consumed; a success is a str whose bytes end at the new cursor |
| PyCodec.Str2Rejects | wrap/pyllbc/src/common/PyStream.cpp:368 | a length that passes is between 0 and the remaining byte count; for buffers under 2 GiB it is refused exactly when negative or beyond the remaining bytes |
| PyCodec.Str2RejectsAsWritten | wrap/pyllbc/src/common/PyStream.cpp:368 | the source's check lets every negative length through when fewer than 2^31 bytes remain |
| PyCodecProperties.Str2NegativeLength | wrap/pyllbc/src/common/PyStream.cpp:368 | with no bytes remaining, a header of -1 passes the source's check and is refused by the corrected one |
| PyStreamModel.PyStream.ReadByteArray | wrap/pyllbc/src/common/PyStream.cpp:393-418 | a signed 4-byte length and then that many bytes as a bytearray; a short header is LIMIT without moving; a short payload is LIMIT with the header consumed |
| PyStreamModel.PyStream.ReadBuffer | wrap/pyllbc/src/common/PyStream.cpp:420-457 | as ReadByteArray but producing a buffer; a negative length fails as a Python error (from PyBuffer_New) |
| PyCodec.DecodeBlob | wrap/pyllbc/src/common/PyStream.cpp:393-457 | a short header is LIMIT at the same position; otherwise the header is consumed whatever follows |
| PyCodecProperties.Str2ShortPayload | wrap/pyllbc/src/common/PyStream.cpp:359-379 | when fewer bytes follow the header than it declares, ReadStr2 fails with LIMIT after consuming the header |
| PyCodecProperties.BlobShortPayload | wrap/pyllbc/src/common/PyStream.cpp:393-457 | when fewer bytes follow the header than it declares, ReadByteArray and ReadBuffer fail with LIMIT after consuming the header |
| PyStreamModel.PyStream.Write | wrap/pyllbc/src/common/PyStream.cpp:469-518 | writes exactly Emit(v) at the cursor, over whatever was there, and returns its status |
| PyStreamModel.PyStream.WriteNone | wrap/pyllbc/src/common/PyStream.cpp:520-523 | succeeds and writes nothing |
| PyStreamModel.PyStream.WriteByte | wrap/pyllbc/src/common/PyStream.cpp:525-607 | follows the corrected ByteOf from "## Findings", not the code as written (which writes 0xFF and returns OK for a long outside the C long range): writes exactly one byte, ByteOf(v), or fails writing nothing |
| PyCodec.ByteOf | wrap/pyllbc/src/common/PyStream.cpp:525-607 | the first byte of a str, bytearray or buffer, with LIMIT when it is empty; 0 or 1 for a bool; the low byte of an int or long; a Python error when a long does not fit a C long; NOT_IMPL for anything else |
| PyCodec.ByteOfAsWritten | wrap/pyllbc/src/common/PyStream.cpp:596-603 | a long outside the C long range writes 0xFF and reports success |
| PyCodecProperties.WriteByteOverflow | wrap/pyllbc/src/common/PyStream.cpp:596-603 | for the long 2^63 the source writes 0xFF, while the corrected choice is a Python error |
| PyStreamModel.PyStream.WriteBool | wrap/pyllbc/src/common/PyStream.cpp:609-615 | one byte, 1 for a true value and 0 for a false one |
| PyCodec.EmitInt | wrap/pyllbc/src/common/PyStream.cpp:617-657 | succeeds exactly when the value converts to a C long; then n bytes that decode to the long cast to n bytes; otherwise a Python error with nothing written |
| PyStreamModel.PyStream.WriteInt16 | wrap/pyllbc/src/common/PyStream.cpp:617-629 | writes EmitInt(v, 2): the C long cast to sint16, or nothing and a Python error |
| PyStreamModel.PyStream.WriteInt32 | wrap/pyllbc/src/common/PyStream.cpp:631-643 | writes EmitInt(v, 4): the C long cast to sint32, or nothing and a Python error |
| PyStreamModel.PyStream.WriteInt64 | wrap/pyllbc/src/common/PyStream.cpp:645-657 | writes EmitInt(v, 8), or nothing and a Python error |
| PyStreamModel.PyStream.WriteDouble | wrap/pyllbc/src/common/PyStream.cpp:673-685 | writes the eight bytes of the double in the stream's byte order |
| PyStreamModel.PyStream.WriteStr | wrap/pyllbc/src/common/PyStream.cpp:697-710 | writes an LLBC string of a str; anything else is a Python error with nothing written |
| PyStreamModel.PyStream.WriteStr2 | wrap/pyllbc/src/common/PyStream.cpp:712-726 | writes a signed 4-byte length and the str's bytes; anything else is a Python error with nothing written |
| PyStreamModel.PyStream.WriteByteArray | wrap/pyllbc/src/common/PyStream.cpp:743-753 | writes a sint32 length header and then the payload; an empty bytearray writes the header only |
| PyStreamModel.PyStream.WriteBuffer | wrap/pyllbc/src/common/PyStream.cpp:755-770 | as WriteByteArray for anything readable as a buffer; anything else is a Python error with nothing written |
| PyStreamModel.PyStream.WriteSequence | wrap/pyllbc/src/common/PyStream.cpp:772-801 | writes EmitSequence(v): the count and then each element in order, returning at the first failure without taking back what was written |
| PyStreamModel.PyStream.WriteDict | wrap/pyllbc/src/common/PyStream.cpp:803-821 | writes EmitDict(v): the count and then each key (as a str) and value, returning at the first key or value that fails |
| PyCodecProperties.WriteThenRead | wrap/pyllbc/src/common/PyStream.cpp:166-205 | for every scalar, str, bytearray and buffer value: reading its own type back from where the write started gives the value (an int cast to 32 bits) and ends where the write ended |
| PyCodecProperties.ReadBackInt | wrap/pyllbc/src/common/PyStream.cpp:288-298 | an int comes back unchanged exactly when it fits in 32 bits |
| PyCodecProperties.Str2RoundTrip | wrap/pyllbc/src/common/PyStream.cpp:359-379 | ReadStr2 after WriteStr2 from the same position returns the same str and advances by 4 + its length |
| PyCodecProperties.BlobRoundTrip | wrap/pyllbc/src/common/PyStream.cpp:393-457 | after WriteByteArray or WriteBuffer, the header reads back as the length, and ReadByteArray and ReadBuffer return the same bytes |
| PyCodecProperties.SequenceLayout | wrap/pyllbc/src/common/PyStream.cpp:782-801 | a written sequence starts with its element count and, on success, continues with the elements' own encodings in index order |
| PyCodecProperties.EmitItemsSucceedsIff | wrap/pyllbc/src/common/PyStream.cpp:788-798 | writing a sequence's elements succeeds exactly when every element's write does |
| PyCodecProperties.EmitItemsBytes | wrap/pyllbc/src/common/PyStream.cpp:788-798 | on success the elements' encodings follow one another in index order |
| PyCodecProperties.EmitItemsFirstFailure | wrap/pyllbc/src/common/PyStream.cpp:788-798 | on failure there is a first failing element: everything before it was written in full, then its own partial output, and nothing after it |
| PyCodecProperties.EmitItemsStable | wrap/pyllbc/src/common/PyStream.cpp:788-798 | once a prefix of the elements has failed, writing more changes neither bytes nor status |
| PyCodecProperties.EmitEntriesSucceedsIff | wrap/pyllbc/src/common/PyStream.cpp:811-818 | writing a dictionary's entries succeeds exactly when every key is a str and every value writes |
| PyCodecProperties.DictLayout | wrap/pyllbc/src/common/PyStream.cpp:803-821 | a written dictionary starts with its entry count and, on success, continues with each entry's key encoding and value encoding in entry order |
| PyCodecProperties.EntryEmit | wrap/pyllbc/src/common/PyStream.cpp:811-818 | one entry succeeds exactly when its key is a str and its value writes, and then writes the key's encoding followed by the value's |
| PyCodecProperties.EmitEntriesBytes | wrap/pyllbc/src/common/PyStream.cpp:811-818 | on success the entries' key-then-value encodings follow one another in entry order |
| PyCodecProperties.EmitEntriesFirstFailure | wrap/pyllbc/src/common/PyStream.cpp:811-818 | on failure there is a first failing entry: every entry before it was written in full, then its own partial output (nothing when the key is not a str), and nothing after it |
| PyCodecProperties.EmitEntriesStable | wrap/pyllbc/src/common/PyStream.cpp:811-818 | once a prefix of the entries has failed, writing more changes neither bytes nor status |
| TimeSpanModel.Zero | llbc/include/llbc/core/time/TimeSpan.h:50-53 | the zero span, the same as the seconds and parts constructors give for all-zero arguments |
| TimeSpanModel.FromSeconds | llbc/include/llbc/core/time/TimeSpan.h:55-61 | total microseconds are seconds·10^6 + ms·10^3 + us, which always fits in 64 bits for int arguments |
| TimeSpanModel.FromParts | llbc/include/llbc/core/time/TimeSpan.h:74-83 | total microseconds are (((d·24 + h)·60 + m)·60 + s)·10^6 + ms·10^3 + us whenever that fits in 64 bits; otherwise, under the model's wrap-around, they agree with it modulo 2^64 |
| TimeSpanModel.FromPartsSeconds | llbc/include/llbc/core/time/TimeSpan.h:61-83 | the parts constructor with no days, hours or minutes equals the seconds constructor |
| TimeSpanModel.ZeroIsNeutral | llbc/include/llbc/core/time/TimeSpan.h:50-53 | the default span is neutral for + and -, and a - a is the default span |
| TimeSpanModel.TruncDiv | llbc/include/llbc/core/time/TimeSpan.h:102-106 | C++ division: the remainder has the sign of the dividend and is smaller than the divisor |
| TimeSpanModel.GetTotalMicroSeconds | llbc/include/llbc/core/time/TimeSpan.h:107 | the microsecond count, which determines the span |
| TimeSpanModel.GetTotalMilliSeconds | llbc/include/llbc/core/time/TimeSpan.h:106 | the whole milliseconds in the span, counted toward zero (the count divided by 1000 for a non-negative span) |
| TimeSpanModel.GetTotalSeconds | llbc/include/llbc/core/time/TimeSpan.h:105 | the whole seconds in the span, counted toward zero, for every span within 2^31 seconds of zero |
| TimeSpanModel.GetTotalMinutes | llbc/include/llbc/core/time/TimeSpan.h:104 | the whole minutes in the span, counted toward zero, for every span within 2^31 minutes of zero |
| TimeSpanModel.GetTotalHours | llbc/include/llbc/core/time/TimeSpan.h:103 | the whole hours in the span, counted toward zero, for every span within 2^31 hours of zero |
| TimeSpanModel.GetTotalDays | llbc/include/llbc/core/time/TimeSpan.h:102 | the whole days in the span, counted toward zero; every sint64 span has few enough days to fit an int |
| TimeSpanModel.QuotientFits | llbc/include/llbc/core/time/TimeSpan.h:102-105 | a span strictly within 2^31 units of zero has a truncated quotient that fits an int |
| TimeSpanModel.TotalIn | llbc/include/llbc/core/time/TimeSpan.h:102-105 | the int totals are the truncated quotient whenever it fits in an int |
| TimeSpanModel.TotalsOfNonNegative | llbc/include/llbc/core/time/TimeSpan.h:102-107 | for a non-negative span: the microseconds are the stored count, and every other total is that count divided by its unit wherever the quotient fits the return type |
| TimeSpanModel.TotalsTruncateTowardZero | llbc/include/llbc/core/time/TimeSpan.h:102-106 | negating a span negates its truncated totals |
| TimeSpanModel.TotalSecondsOfSeconds | llbc/include/llbc/core/time/TimeSpan.h:61-106 | a span of s whole seconds reports s total seconds and s·1000 total milliseconds |
| TimeSpanModel.TotalDaysOfDays | llbc/include/llbc/core/time/TimeSpan.h:83-102 | a span of d whole days reports d total days, for every d whose span fits |
| TimeSpanModel.Add | llbc/include/llbc/core/time/TimeSpan.h:109 | the total of a + b is the sum of the totals whenever it fits |
| TimeSpanModel.Sub | llbc/include/llbc/core/time/TimeSpan.h:110 | the total of a - b is the difference of the totals whenever it fits |
| TimeSpanModel.SubUndoesAdd | llbc/include/llbc/core/time/TimeSpan.h:109-113 | (a + b) - b == a and (a - b) + b == a; where the sum or difference overflows this holds only under the model's choice of wrap-around, since the source's overflow is undefined |
| TimeSpanModel.AddCommutes | llbc/include/llbc/core/time/TimeSpan.h:109 | a + b == b + a |
| TimeSpanModel.AddAssociates | llbc/include/llbc/core/time/TimeSpan.h:109 | (a + b) + c == a + (b + c); where an intermediate sum overflows this holds only under the model's choice of wrap-around |
| TimeSpanModel.AddMonotone | llbc/include/llbc/core/time/TimeSpan.h:109-119 | adding a non-negative span that does not overflow never makes the span smaller |
| TimeSpanModel.Trichotomy | llbc/include/llbc/core/time/TimeSpan.h:115-120 | exactly one of <, ==, > holds; <= is < or ==, and >= is > or == |
| TimeSpanModel.Eq | llbc/include/llbc/core/time/TimeSpan.h:115 | == holds exactly for the same span |
| TimeSpanModel.Ne | llbc/include/llbc/core/time/TimeSpan.h:116 | != is the negation of == |
| TimeSpanModel.Lt | llbc/include/llbc/core/time/TimeSpan.h:117 | a < b exactly when b - a is positive, whenever that difference fits in 64 bits |
| TimeSpanModel.Gt | llbc/include/llbc/core/time/TimeSpan.h:118 | a > b is b < a |
| TimeSpanModel.Le | llbc/include/llbc/core/time/TimeSpan.h:119 | a <= b is not b < a |
| TimeSpanModel.Ge | llbc/include/llbc/core/time/TimeSpan.h:120 | a >= b is not a < b |
| TimeSpanModel.LeTransitive | llbc/include/llbc/core/time/TimeSpan.h:119 | <= is transitive |
| TimeSpanModel.SpanBytesRoundTrip | llbc/include/llbc/core/time/TimeSpan.h:141-142 | decoding the serialized bytes gives back the same span |
| TimeSpanModel.SpanOfBytesRoundTrip | llbc/include/llbc/core/time/TimeSpan.h:141-142 | every eight bytes are the serialization of the span they decode to |
| TimeSpanModel.Serialize | llbc/include/llbc/core/time/TimeSpan.h:141 | writes the span's eight bytes at the cursor and advances by 8 |
| TimeSpanModel.DeSerialize | llbc/include/llbc/core/time/TimeSpan.h:142 | succeeds exactly when eight bytes remain and then returns the span they encode; on failure the span and the cursor keep their values |
| TimeSpanModel.SerializeRoundTrip | llbc/include/llbc/core/time/TimeSpan.h:141-142 | the eight bytes Serialize leaves at the cursor are all present for a DeSerialize from the same position, and decode to an equal span |

## Left out

- Python object machinery is not modelled: reference counting, the type detector, error transfer and the argument parsers. Their outcomes are inputs: a value's `PyValue` constructor is its detected type, and `AsLong`/`AsString`/`AsReadBuffer` give the conversion results.
- A float given to `PyInt_AsLong` is treated as a failed conversion. Floats are kept as opaque bit patterns, so truncating one to an integer cannot be expressed.
- Instance encoding is not modelled: user `encode`/`decode` methods, the `__dict__`/`__slots__` walk in `WriteInst`, and the decode branch of `Read`. All of them run arbitrary user Python code. In the model `Read` of any other class is NOT_FOUND, and `PyValue` has no instance case.
- `FmtRead`/`FmtWrite` are not modelled: they run the pack-format compiler, which is not part of this model.
- Unicode values are not modelled (`ReadUnicode`/`WriteUnicode` and their dispatch branches), because UTF-8 encoding is not modelled.
- `ReadFloat`/`WriteFloat` are not modelled. Doubles are modelled only as opaque 8-byte patterns.
- PyStreamModel.PyStream.WriteDouble: takes the double's bit pattern. The `PyArg_Parse("d")` conversion of ints and longs to double is not modelled.
- PyStreamModel.PyStream.WriteBool: takes the truth value, the outcome of `PyObject_IsTrue`, as its input.
- The lazy initialisation of the method-name strings in the constructor is not modelled.
- `ReadPyInt`, `ReadPyLong`, `WritePyInt`, `WritePyLong` and `GetPyObj` are not modelled: they are one-line forwards outside the modelled operations.
- `LLBC_Stream` internals are not part of this model; the class `LlbcStream.Stream` states the assumed behaviour listed above.
- The contents of newly grown buffer space after `Resize` are unspecified in the model.
- LlbcStream.Stream.constructor: the initial contents and default byte order of a new stream are not stated. The byte order is a parameter.
- PyCodec.DecodeBlob: a negative bytearray length is modelled as LIMIT, on the assumption that `LLBC_Stream::ReadBuffer` refuses it. Its code is not part of this model.
- PyCodecProperties.WriteThenRead: does not cover containers, because the source does not read tuples, lists or dicts back (NOT_IMPL).
- PyCodecProperties.Str2RoundTrip: holds for buffers under 2 GiB. For larger buffers the source's `static_cast<int>` of the remaining byte count wraps, and a valid string can be refused.
- The text forms of a time span are not modelled: the string constructor, `ToString` and `operator<<`. They are formatting and parsing for I/O, and their implementation is not shown.
- The part getters (`GetDays` … `GetMicroSeconds`) are not modelled: their implementation in TimeSpanImpl.h is not part of this model.
- `SerializeEx`/`DeSerializeEx` are not modelled: their wire format in TimeSpanImpl.h is not part of this model.
- TimeSpanModel.Add/Sub/FromParts: overflow of the `sint64` arithmetic is undefined behaviour in the source. The model assumes two's-complement wrap-around, so the overflow cases of `SubUndoesAdd`, `AddAssociates` and `FromParts` hold under that assumption only; the source promises nothing there.
- `+=`, `-=` and `=` are value reassignments in this model (`a := Add(a, b)`). `SubUndoesAdd` states the round trip they give when nothing overflows, and under the wrap-around assumption otherwise.
- TimeSpanImpl.h is not part of this model. The formulas of the constructors, getters and operators follow their documented meaning, computed in `sint64` with C++ truncating division.
- The service interface (IService.cpp), the frame-rate test harness and the JSON log message builder are not part of this model. They are concurrency wrappers, a wall-clock test driver and logging I/O.

## Findings

| source | as written | input that shows it | evidently intended | confidence | as-written member | corrected member |
|---|---|---|---|---|---|---|
| wrap/pyllbc/src/common/PyStream.cpp:368 | ReadStr2 refuses a length only when it exceeds the remaining byte count cast to int, so a negative length passes the check; the code then calls `PyString_FromStringAndSize` with the negative length, which fails with a Python SystemError, and still runs `_stream.Skip(len)` with it | a 4-byte header holding -1 with no payload: `Str2RejectsAsWritten(0, -1)` is false | a negative length is refused with LIMIT, like a too-long one | medium, not executed | PyCodec.Str2RejectsAsWritten | PyCodec.Str2Rejects |
| wrap/pyllbc/src/common/PyStream.cpp:596-603 | WriteByte ignores a failed `PyLong_AsLong`: for a long outside the C long range it writes the low byte of -1 (0xFF) and returns OK with a Python exception pending | `PyLong(2^63)`: `ByteOfAsWritten` gives 0xFF | the conversion error is reported and nothing is written, as in WriteInt16/32 | medium, not executed | PyCodec.ByteOfAsWritten | PyCodec.ByteOf |
