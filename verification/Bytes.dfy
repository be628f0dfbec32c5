/** Octets, machine words and the big-endian encodings of egg-buffer.c. */
module Bytes {
  type Byte = b: int | 0 <= b < 0x100

  const TWO_32: int := 0x1_0000_0000
  const TWO_64: int := 0x1_0000_0000_0000_0000

  type Uint32 = x: int | 0 <= x < 0x1_0000_0000
  /** CK_ULONG and size_t on a 64-bit platform. */
  type Ulong = x: int | 0 <= x < 0x1_0000_0000_0000_0000

  datatype Option<+T> = None | Some(value: T)

  /** A value, or the PKCS#11 return code that stands in its place. */
  datatype Result<+T> = Ok(value: T) | Err(rv: Ulong)

  /** The implicit conversion of a wider unsigned value to uint32_t. */
  function Truncate32(x: nat): (r: Uint32)
    ensures x < TWO_32 <==> r == x
  {
    x % 0x1_0000_0000
  }

  function EncodeUint32(v: Uint32): (s: seq<Byte>)
    ensures |s| == 4
  {
    [v / 0x100_0000, v / 0x1_0000 % 0x100, v / 0x100 % 0x100, v % 0x100]
  }

  function DecodeUint32(s: seq<Byte>): (v: Uint32)
    requires |s| == 4
  {
    s[0] as int * 0x100_0000 + s[1] as int * 0x1_0000 + s[2] as int * 0x100 + s[3] as int
  }

  /** Encoding and decoding of 32-bit words are inverse bijections. */
  lemma Uint32RoundTrip(v: Uint32)
    ensures DecodeUint32(EncodeUint32(v)) == v
  {
    var q2, q1 := v / 0x1_0000, v / 0x100;
    assert q1 / 0x100 == q2 && q2 / 0x100 == v / 0x100_0000;
    assert v == q1 * 0x100 + v % 0x100;
    assert q1 == q2 * 0x100 + q1 % 0x100;
    assert q2 == q2 / 0x100 * 0x100 + q2 % 0x100;
  }

  lemma Uint32Onto(s: seq<Byte>)
    requires |s| == 4
    ensures EncodeUint32(DecodeUint32(s)) == s
  {
    var q2: int := s[0] as int * 0x100 + s[1] as int;
    var q1: int := q2 * 0x100 + s[2] as int;
    var v := DecodeUint32(s);
    assert v == q1 * 0x100 + s[3] as int;
    assert v / 0x100 == q1 && q1 / 0x100 == q2 && q2 / 0x100 == s[0];
  }

  /** Words are big-endian: of two, the smaller is smaller in the first byte in which they differ. */
  lemma BigEndian(v: Uint32, w: Uint32)
    requires v < w
    ensures exists i | 0 <= i < 4 :: EncodeUint32(v)[..i] == EncodeUint32(w)[..i] && EncodeUint32(v)[i] < EncodeUint32(w)[i]
  {
    Uint32RoundTrip(v);
    Uint32RoundTrip(w);
    var a, b := EncodeUint32(v), EncodeUint32(w);
    hide EncodeUint32;
    var i :=
      if a[0] != b[0] then 0 else if a[1] != b[1] then 1 else if a[2] != b[2] then 2 else 3;
    assert a[..i] == b[..i] && a[i] < b[i];
  }

  function EncodeUint64(v: Ulong): (s: seq<Byte>)
    ensures |s| == 8
  {
    EncodeUint32(v / 0x1_0000_0000) + EncodeUint32(v % 0x1_0000_0000)
  }

  function DecodeUint64(s: seq<Byte>): (v: Ulong)
    requires |s| == 8
  {
    DecodeUint32(s[..4]) * 0x1_0000_0000 + DecodeUint32(s[4..])
  }

  lemma Uint64RoundTrip(v: Ulong)
    ensures DecodeUint64(EncodeUint64(v)) == v
  {
    var s := EncodeUint64(v);
    assert s[..4] == EncodeUint32(v / 0x1_0000_0000) && s[4..] == EncodeUint32(v % 0x1_0000_0000);
    Uint32RoundTrip(v / 0x1_0000_0000);
    Uint32RoundTrip(v % 0x1_0000_0000);
  }
}
