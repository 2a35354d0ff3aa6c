/**
 * Bytes, byte order and fixed-width integer encodings shared by the stream
 * and time-span models.  A multi-byte integer is stored as its low `n` bytes
 * (two's complement for signed values), in the stream's configured byte order.
 */
module Bytes {

  type Byte = x: int | 0 <= x < 0x100

  type Int32 = x: int | -0x8000_0000 <= x < 0x8000_0000
  type Int64 = x: int | -0x8000_0000_0000_0000 <= x < 0x8000_0000_0000_0000
  type UInt64 = x: int | 0 <= x < 0x1_0000_0000_0000_0000

  datatype Option<T> = None | Some(value: T)

  /** Byte order of multi-byte values; the library's endian codes are 0 and 1. */
  datatype Endian = BigEndian | LittleEndian

  function EndianCode(e: Endian): int
  {
    if e == BigEndian then 0 else 1
  }

  /** The endian a numeric code denotes, if the code is a valid one. */
  function EndianFromCode(code: int): (r: Option<Endian>)
    ensures r.Some? <==> code == 0 || code == 1
    ensures r.Some? ==> EndianCode(r.value) == code
  {
    if code == 0 then Some(BigEndian)
    else if code == 1 then Some(LittleEndian)
    else None
  }

  function Pow256(n: nat): (r: nat)
    ensures r > 0
  {
    if n == 0 then 1 else 0x100 * Pow256(n - 1)
  }

  lemma Pow256Widths()
    ensures Pow256(1) == 0x100
    ensures Pow256(2) == 0x1_0000
    ensures Pow256(4) == 0x1_0000_0000
    ensures Pow256(8) == 0x1_0000_0000_0000_0000
  {
    assert Pow256(2) == 0x100 * Pow256(1);
    assert Pow256(3) == 0x100 * Pow256(2);
    assert Pow256(4) == 0x100 * Pow256(3);
    assert Pow256(5) == 0x100 * Pow256(4);
    assert Pow256(6) == 0x100 * Pow256(5);
    assert Pow256(7) == 0x100 * Pow256(6);
    assert Pow256(8) == 0x100 * Pow256(7);
  }

  /** The low `n` bytes of `x`, least significant first. */
  function LittleEndianBytes(x: nat, n: nat): (r: seq<Byte>)
    ensures |r| == n
  {
    if n == 0 then [] else [x % 0x100] + LittleEndianBytes(x / 0x100, n - 1)
  }

  /** The number whose bytes, least significant first, are `bs`. */
  function LittleEndianValue(bs: seq<Byte>): (v: nat)
    ensures v < Pow256(|bs|)
  {
    if bs == [] then 0 else bs[0] + 0x100 * LittleEndianValue(bs[1..])
  }

  lemma {:induction false} LittleEndianRoundTrip(x: nat, n: nat)
    requires x < Pow256(n)
    ensures LittleEndianValue(LittleEndianBytes(x, n)) == x
  {
    if n > 0 {
      var bs := LittleEndianBytes(x, n);
      assert bs[1..] == LittleEndianBytes(x / 0x100, n - 1);
      LittleEndianRoundTrip(x / 0x100, n - 1);
    }
  }

  lemma {:induction false} LittleEndianBytesInverse(bs: seq<Byte>)
    ensures LittleEndianBytes(LittleEndianValue(bs), |bs|) == bs
  {
    if bs != [] {
      var v := LittleEndianValue(bs);
      assert v % 0x100 == bs[0] && v / 0x100 == LittleEndianValue(bs[1..]);
      LittleEndianBytesInverse(bs[1..]);
    }
  }

  function Reverse<T>(s: seq<T>): (r: seq<T>)
    ensures |r| == |s|
    ensures forall i :: 0 <= i < |s| ==> r[i] == s[|s| - 1 - i]
  {
    if s == [] then [] else Reverse(s[1..]) + [s[0]]
  }

  lemma ReverseReverse<T>(s: seq<T>)
    ensures Reverse(Reverse(s)) == s
  {
    var r := Reverse(Reverse(s));
    assert forall i :: 0 <= i < |s| ==> r[i] == s[i];
  }

  /** `x` truncated to `n` bytes, in byte order `e`. */
  function EncodeUInt(x: nat, n: nat, e: Endian): (r: seq<Byte>)
    ensures |r| == n
  {
    var le := LittleEndianBytes(x, n);
    if e == LittleEndian then le else Reverse(le)
  }

  /** The unsigned number stored in `bs` with byte order `e`. */
  function DecodeUInt(bs: seq<Byte>, e: Endian): (v: nat)
    ensures v < Pow256(|bs|)
  {
    LittleEndianValue(if e == LittleEndian then bs else Reverse(bs))
  }

  lemma DecodeEncodeUInt(x: nat, n: nat, e: Endian)
    requires x < Pow256(n)
    ensures DecodeUInt(EncodeUInt(x, n, e), e) == x
  {
    if e == BigEndian {
      ReverseReverse(LittleEndianBytes(x, n));
    }
    LittleEndianRoundTrip(x, n);
  }

  lemma EncodeDecodeUInt(bs: seq<Byte>, e: Endian)
    ensures EncodeUInt(DecodeUInt(bs, e), |bs|, e) == bs
  {
    if e == LittleEndian {
      LittleEndianBytesInverse(bs);
    } else {
      LittleEndianBytesInverse(Reverse(bs));
      ReverseReverse(bs);
    }
  }

  /** Two's-complement truncation of `x` to `n` bytes (a C cast to an n-byte integer, as bits). */
  function Wrap(x: int, n: nat): (r: nat)
    ensures r < Pow256(n)
  {
    x % Pow256(n)
  }

  /** The signed value of the `n`-byte pattern `u`. */
  function ToSigned(u: nat, n: nat): int
  {
    if 2 * u >= Pow256(n) then u - Pow256(n) else u
  }

  predicate InSignedRange(x: int, n: nat)
  {
    -(Pow256(n) as int) <= 2 * x < Pow256(n)
  }

  /** `x` cast to an `n`-byte signed integer and stored in byte order `e`. */
  function EncodeInt(x: int, n: nat, e: Endian): (r: seq<Byte>)
    ensures |r| == n
  {
    EncodeUInt(Wrap(x, n), n, e)
  }

  /** The signed number stored in `bs` with byte order `e`. */
  function DecodeInt(bs: seq<Byte>, e: Endian): int
  {
    ToSigned(DecodeUInt(bs, e), |bs|)
  }

  lemma MultipleBetween(k: int, p: int)
    requires p > 0 && -p < k * p < p
    ensures k == 0
  {
  }

  /** Euclidean remainder is determined by any quotient/remainder split of `x`. */
  lemma ModUnique(x: int, p: int, q: int, r: int)
    requires p > 0 && x == q * p + r && 0 <= r < p
    ensures x % p == r
  {
    var q', r' := x / p, x % p;
    assert x == q' * p + r';
    assert (q - q') * p == r' - r;
    MultipleBetween(q - q', p);
  }

  lemma ToSignedWrap(x: int, n: nat)
    requires InSignedRange(x, n)
    ensures ToSigned(Wrap(x, n), n) == x
  {
    var p := Pow256(n);
    if x >= 0 {
      ModUnique(x, p, 0, x);
    } else {
      ModUnique(x, p, -1, x + p);
    }
  }

  lemma ToSignedRange(u: nat, n: nat)
    requires u < Pow256(n)
    ensures InSignedRange(ToSigned(u, n), n)
  {
  }

  lemma DecodeEncodeInt(x: int, n: nat, e: Endian)
    ensures DecodeInt(EncodeInt(x, n, e), e) == ToSigned(Wrap(x, n), n)
    ensures InSignedRange(x, n) ==> DecodeInt(EncodeInt(x, n, e), e) == x
  {
    DecodeEncodeUInt(Wrap(x, n), n, e);
    if InSignedRange(x, n) {
      ToSignedWrap(x, n);
    }
  }

  /** The C conversion of `x` to a 32- or 64-bit signed integer. */
  function CastInt32(x: int): (r: Int32)
    ensures -0x8000_0000 <= x < 0x8000_0000 ==> r == x
  {
    if x % 0x1_0000_0000 >= 0x8000_0000 then x % 0x1_0000_0000 - 0x1_0000_0000 else x % 0x1_0000_0000
  }

  function CastInt64(x: int): (r: Int64)
    ensures -0x8000_0000_0000_0000 <= x < 0x8000_0000_0000_0000 ==> r == x
  {
    var u := x % 0x1_0000_0000_0000_0000;
    if u >= 0x8000_0000_0000_0000 then u - 0x1_0000_0000_0000_0000 else u
  }

  /** The casts are the n-byte truncation read back as a signed value, for n = 4 and n = 8. */
  lemma CastIsTruncation(x: int)
    ensures CastInt32(x) == ToSigned(Wrap(x, 4), 4)
    ensures CastInt64(x) == ToSigned(Wrap(x, 8), 8)
  {
    Pow256Widths();
  }

  /** `n` bytes at `pos`, when that many remain. */
  function ReadAt(buf: seq<Byte>, pos: nat, n: nat): (r: Option<seq<Byte>>)
    ensures r.Some? <==> pos + n <= |buf|
    ensures r.Some? ==> |r.value| == n
  {
    if pos + n <= |buf| then Some(buf[pos..pos + n]) else None
  }

  /**
   * The buffer after writing `data` at `pos`: the bytes before `pos` stay, `data`
   * replaces what was there, the buffer grows when `data` runs past its end, and
   * any bytes after the written ones stay.
   */
  function Overwrite(buf: seq<Byte>, pos: nat, data: seq<Byte>): (r: seq<Byte>)
    requires pos <= |buf|
    ensures |r| == if pos + |data| <= |buf| then |buf| else pos + |data|
    ensures r[..pos] == buf[..pos]
    ensures r[pos..pos + |data|] == data
    ensures pos + |data| <= |buf| ==> r[pos + |data|..] == buf[pos + |data|..]
  {
    buf[..pos] + data + if pos + |data| <= |buf| then buf[pos + |data|..] else []
  }

  lemma OverwriteConcat(buf: seq<Byte>, pos: nat, x: seq<Byte>, y: seq<Byte>)
    requires pos <= |buf|
    ensures Overwrite(Overwrite(buf, pos, x), pos + |x|, y) == Overwrite(buf, pos, x + y)
  {
    var lhs := Overwrite(Overwrite(buf, pos, x), pos + |x|, y);
    var rhs := Overwrite(buf, pos, x + y);
    assert |lhs| == |rhs|;
    forall i | 0 <= i < |lhs| ensures lhs[i] == rhs[i] {
      if i < pos {
        assert lhs[i] == lhs[..pos][i];
      } else if i < pos + |x| {
        assert lhs[i] == Overwrite(buf, pos, x)[i];
        assert Overwrite(buf, pos, x)[i] == Overwrite(buf, pos, x)[pos..pos + |x|][i - pos];
        assert rhs[i] == rhs[pos..pos + |x| + |y|][i - pos];
      } else if i < pos + |x| + |y| {
        assert lhs[i] == lhs[pos + |x|..pos + |x| + |y|][i - pos - |x|];
        assert rhs[i] == rhs[pos..pos + |x| + |y|][i - pos];
      } else {
        assert lhs[i] == lhs[pos + |x| + |y|..][i - pos - |x| - |y|];
        assert rhs[i] == rhs[pos + |x| + |y|..][i - pos - |x| - |y|];
      }
    }
  }

  /** Appending `x` after a write of `h + a` is the same as writing `h + (a + x)` in one go. */
  lemma OverwriteAppend(buf: seq<Byte>, pos: nat, h: seq<Byte>, a: seq<Byte>, x: seq<Byte>)
    requires pos <= |buf|
    ensures Overwrite(Overwrite(buf, pos, h + a), pos + |h + a|, x) == Overwrite(buf, pos, h + (a + x))
  {
    OverwriteConcat(buf, pos, h + a, x);
    assert h + a + x == h + (a + x);
  }

  lemma ReadBackWritten(buf: seq<Byte>, pos: nat, x: seq<Byte>, y: seq<Byte>)
    requires pos <= |buf|
    ensures ReadAt(Overwrite(buf, pos, x + y), pos, |x|) == Some(x)
    ensures ReadAt(Overwrite(buf, pos, x + y), pos + |x|, |y|) == Some(y)
  {
    var r := Overwrite(buf, pos, x + y);
    assert r[pos..pos + |x|] == r[pos..pos + |x| + |y|][..|x|];
    assert r[pos + |x|..pos + |x| + |y|] == r[pos..pos + |x| + |y|][|x|..];
  }
}
