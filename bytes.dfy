/**
 * Byte sequences as the server builds them: Go's `byte`, zero-filled buffers
 * from `make([]byte, n)`, fixed-width fields filled with `copy`, and the
 * little-endian encoding of unsigned 16- and 32-bit integers. Go writes the
 * encodings with shifts and masks (`byte((v >> 8) & 0xFF)`); on unsigned
 * values these are division and remainder by powers of 256, which is how
 * they are written here.
 */
module Bytes {

  /** Go's `byte`: an unsigned 8-bit value. */
  newtype byte = b: int | 0 <= b < 256

  const U16Limit: int := 0x1_0000
  const U32Limit: int := 0x1_0000_0000

  /** `n` zero bytes: what `make([]byte, n)` holds before anything is written. */
  function Zeros(n: nat): (z: seq<byte>)
    ensures |z| == n
    ensures forall i :: 0 <= i < n ==> z[i] == 0
  {
    seq(n, _ => 0)
  }

  lemma ZerosSplit(m: nat, n: nat)
    ensures Zeros(m + n) == Zeros(m) + Zeros(n)
  {
  }

  /** A fixed-width field of `n` bytes holding `s` followed by zero bytes,
      as `copy(field, s)` leaves a zero-filled field when `s` fits. */
  function Padded(s: seq<byte>, n: nat): (r: seq<byte>)
    requires |s| <= n
    ensures |r| == n
    ensures r[..|s|] == s
    ensures forall i :: |s| <= i < n ==> r[i] == 0
  {
    s + Zeros(n - |s|)
  }

  /** Go's `copy(dst, src)` copies `min(len(dst), len(src))` bytes: the part of
      `src` that lands in a destination of `n` bytes. */
  function CopiedPart(src: seq<byte>, n: nat): (r: seq<byte>)
    ensures |r| <= n && |r| <= |src|
    ensures |r| == n || |r| == |src|
    ensures r == src[..|r|]
  {
    if |src| <= n then src else src[..n]
  }

  /** `[]byte(s)` for a string of ASCII characters: one byte per character. */
  function Ascii(s: string): (r: seq<byte>)
    requires forall i :: 0 <= i < |s| ==> s[i] as int < 128
    ensures |r| == |s|
    ensures forall i :: 0 <= i < |s| ==> r[i] as int == s[i] as int
  {
    seq(|s|, i requires 0 <= i < |s| => s[i] as int as byte)
  }

  /** The two little-endian bytes of an unsigned 16-bit value. */
  function Le16(v: int): (r: seq<byte>)
    requires 0 <= v < U16Limit
    ensures |r| == 2
    ensures Le16Value(r) == v
  {
    [(v % 256) as byte, (v / 256) as byte]
  }

  /** The unsigned 16-bit value stored little-endian in two bytes. */
  function Le16Value(b: seq<byte>): (v: int)
    requires |b| == 2
    ensures 0 <= v < U16Limit
  {
    b[0] as int + 256 * b[1] as int
  }

  /** The four little-endian bytes of an unsigned 32-bit value. */
  function Le32(v: int): (r: seq<byte>)
    requires 0 <= v < U32Limit
    ensures |r| == 4
    ensures Le32Value(r) == v
  {
    Le32Digits(v);
    [(v % 256) as byte, (v / 256 % 256) as byte,
     (v / 0x1_0000 % 256) as byte, (v / 0x100_0000) as byte]
  }

  /** The base-256 digits of an unsigned 32-bit value. */
  lemma Le32Digits(v: int)
    requires 0 <= v < U32Limit
    ensures 0 <= v / 0x100_0000 < 256
    ensures v == v % 256 + 256 * (v / 256 % 256) + 0x1_0000 * (v / 0x1_0000 % 256)
                 + 0x100_0000 * (v / 0x100_0000)
  {
    var q1 := v / 256;
    var q2 := q1 / 256;
    DivDiv(v, q1);
    DivDiv(q1, q2);
    assert v == v % 256 + 256 * q1;
    assert q1 == q1 % 256 + 256 * q2;
    assert q2 == q2 % 256 + 256 * (q2 / 256);
  }

  /** The unsigned 32-bit value stored little-endian in four bytes. */
  function Le32Value(b: seq<byte>): (v: int)
    requires |b| == 4
    ensures 0 <= v < U32Limit
  {
    b[0] as int + 256 * b[1] as int + 0x1_0000 * b[2] as int + 0x100_0000 * b[3] as int
  }

  /** Decoding two bytes and encoding the value again gives back the bytes. */
  lemma Le16Inverse(b: seq<byte>)
    requires |b| == 2
    ensures Le16(Le16Value(b)) == b
  {
  }

  /** Decoding four bytes and encoding the value again gives back the bytes. */
  lemma Le32Inverse(b: seq<byte>)
    requires |b| == 4
    ensures Le32(Le32Value(b)) == b
  {
    var v := Le32Value(b);
    var q1 := b[1] as int + 256 * b[2] as int + 0x1_0000 * b[3] as int;
    var q2 := b[2] as int + 256 * b[3] as int;
    SplitLowByte(v, b[0] as int, q1);
    SplitLowByte(q1, b[1] as int, q2);
    SplitLowByte(q2, b[2] as int, b[3] as int);
    assert v / 0x1_0000 == q2 by { DivDiv(v, q1); }
    assert v / 0x100_0000 == b[3] as int by { DivDiv(v, q1); DivDiv(q1, q2); }
  }

  /** Division by 256 splits off the low byte. */
  lemma SplitLowByte(v: int, lo: int, hi: int)
    requires 0 <= lo < 256 && 0 <= hi && v == lo + 256 * hi
    ensures v / 256 == hi && v % 256 == lo
  {
  }

  lemma DivDiv(v: int, q: int)
    requires 0 <= v && q == v / 256
    ensures v / 0x1_0000 == q / 256 && v / 0x100_0000 == q / 0x1_0000
  {
  }

  /** The bytes of a fixed-width C string field up to its first NUL byte:
      how a reader of the field recovers the string written into it. */
  function CString(f: seq<byte>): (r: seq<byte>)
    ensures |r| <= |f| && r == f[..|r|]
    ensures forall i :: 0 <= i < |r| ==> r[i] != 0
    ensures |r| < |f| ==> f[|r|] == 0
  {
    if f == [] || f[0] == 0 then [] else [f[0]] + CString(f[1..])
  }

  /** A string with no NUL byte written into a wider zero-filled field is read
      back unchanged: the field always keeps a terminating NUL. */
  lemma {:induction false} CStringOfPadded(s: seq<byte>, n: nat)
    requires |s| < n
    requires forall i :: 0 <= i < |s| ==> s[i] != 0
    ensures CString(Padded(s, n)) == s
  {
    if s != [] {
      assert Padded(s, n)[1..] == Padded(s[1..], n - 1);
      CStringOfPadded(s[1..], n - 1);
    }
  }
}
