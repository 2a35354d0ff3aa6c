/**
 * The byte stream underneath the Python stream: a growable buffer with one
 * cursor used for both reading and writing, and a byte order for multi-byte
 * values.  Its own implementation is not part of this model; this class states
 * the behaviour the stream and time-span code rely on.
 */
module LlbcStream {
  import opened Bytes

  class Stream {
    var buf: seq<Byte>
    var pos: nat
    var endian: Endian

    ghost predicate Valid()
      reads this
    {
      pos <= |buf|
    }

    /** A stream of `size` bytes with the cursor at 0; the initial bytes are unspecified. */
    constructor (size: nat, endian: Endian)
      ensures Valid()
      ensures |buf| == size && pos == 0 && this.endian == endian
    {
      buf := seq(size, _ => 0);
      pos := 0;
      this.endian := endian;
    }

    method SetEndian(e: Endian)
      requires Valid()
      modifies this
      ensures Valid()
      ensures endian == e && buf == old(buf) && pos == old(pos)
    {
      endian := e;
    }

    method SetPos(p: nat)
      requires Valid() && p <= |buf|
      modifies this
      ensures Valid()
      ensures pos == p && buf == old(buf) && endian == old(endian)
    {
      pos := p;
    }

    /** Grows the buffer to `n` bytes; the bytes already there are kept, the new ones are unspecified. */
    method Resize(n: nat)
      requires Valid() && n >= |buf|
      modifies this
      ensures Valid()
      ensures |buf| == n && buf[..old(|buf|)] == old(buf)
      ensures pos == old(pos) && endian == old(endian)
    {
      buf := buf + seq(n - |buf|, _ => 0);
    }

    /** Writes `data` at the cursor, growing the buffer as needed, and moves the cursor past it. */
    method WriteBuffer(data: seq<Byte>)
      requires Valid()
      modifies this
      ensures Valid()
      ensures buf == Overwrite(old(buf), old(pos), data)
      ensures pos == old(pos) + |data| && endian == old(endian)
    {
      buf := Overwrite(buf, pos, data);
      pos := pos + |data|;
    }

    /** Writes `x` as an `n`-byte signed integer in the stream's byte order. */
    method WriteInt(x: int, n: nat)
      requires Valid()
      modifies this
      ensures Valid()
      ensures buf == Overwrite(old(buf), old(pos), EncodeInt(x, n, endian))
      ensures pos == old(pos) + n && endian == old(endian)
    {
      WriteBuffer(EncodeInt(x, n, endian));
    }

    /** Writes `x` as an `n`-byte unsigned integer in the stream's byte order. */
    method WriteUInt(x: nat, n: nat)
      requires Valid()
      modifies this
      ensures Valid()
      ensures buf == Overwrite(old(buf), old(pos), EncodeUInt(x, n, endian))
      ensures pos == old(pos) + n && endian == old(endian)
    {
      WriteBuffer(EncodeUInt(x, n, endian));
    }

    /** Reads `n` bytes when that many remain; otherwise fails and leaves the cursor alone. */
    method ReadBuffer(n: nat) returns (r: Option<seq<Byte>>)
      requires Valid()
      modifies this
      ensures Valid()
      ensures r == ReadAt(old(buf), old(pos), n)
      ensures pos == if r.Some? then old(pos) + n else old(pos)
      ensures buf == old(buf) && endian == old(endian)
    {
      if pos + n <= |buf| {
        r := Some(buf[pos..pos + n]);
        pos := pos + n;
      } else {
        r := None;
      }
    }

    /** Reads an `n`-byte signed integer in the stream's byte order, all or nothing. */
    method ReadInt(n: nat) returns (r: Option<int>)
      requires Valid()
      modifies this
      ensures Valid()
      ensures ReadAt(old(buf), old(pos), n).Some? <==> r.Some?
      ensures r.Some? ==> r.value == DecodeInt(ReadAt(old(buf), old(pos), n).value, endian)
      ensures pos == if r.Some? then old(pos) + n else old(pos)
      ensures buf == old(buf) && endian == old(endian)
    {
      var bytes := ReadBuffer(n);
      if bytes.Some? {
        r := Some(DecodeInt(bytes.value, endian));
      } else {
        r := None;
      }
    }

    /** Reads an `n`-byte unsigned integer in the stream's byte order, all or nothing. */
    method ReadUInt(n: nat) returns (r: Option<nat>)
      requires Valid()
      modifies this
      ensures Valid()
      ensures ReadAt(old(buf), old(pos), n).Some? <==> r.Some?
      ensures r.Some? ==> r.value == DecodeUInt(ReadAt(old(buf), old(pos), n).value, endian)
      ensures pos == if r.Some? then old(pos) + n else old(pos)
      ensures buf == old(buf) && endian == old(endian)
    {
      var bytes := ReadBuffer(n);
      if bytes.Some? {
        r := Some(DecodeUInt(bytes.value, endian));
      } else {
        r := None;
      }
    }

    method Skip(n: nat)
      requires Valid() && pos + n <= |buf|
      modifies this
      ensures Valid()
      ensures pos == old(pos) + n && buf == old(buf) && endian == old(endian)
    {
      pos := pos + n;
    }
  }
}
