/**
 * Byte strings as the sniffer sees them: a file is a sequence of bytes, a
 * read from a position returns a possibly short slice (Python's `f.read(n)`
 * after `f.seek(pos)`), a slice is clamped (Python's `s[a:b]`), and
 * `struct.unpack` decodes a slice of exactly the right length or fails.
 */
module Bytes {
  import opened Wrappers

  type byte = b: int | 0 <= b < 256

  function Min(a: int, b: int): int {
    if a <= b then a else b
  }

  /** `f.seek(pos); f.read(n)`: at most n bytes, none at or past the end of the file. */
  function Read(data: seq<byte>, pos: nat, n: nat): (r: seq<byte>)
    ensures |r| <= n
    ensures |r| == (if pos >= |data| then 0 else Min(n, |data| - pos))
    ensures pos + n <= |data| ==> r == data[pos..pos + n]
    ensures forall k :: 0 <= k < |r| ==> r[k] == data[pos + k]
  {
    if pos >= |data| then [] else data[pos..Min(pos + n, |data|)]
  }

  /** Python's slice `s[a:b]` for 0 <= a <= b: both ends are clamped to the length. */
  function Slice(s: seq<byte>, a: nat, b: nat): (r: seq<byte>)
    requires a <= b
    ensures |r| == Min(b, |s|) - Min(a, |s|)
    ensures b <= |s| ==> r == s[a..b]
    ensures forall k :: 0 <= k < |r| ==> r[k] == s[Min(a, |s|) + k]
  {
    s[Min(a, |s|)..Min(b, |s|)]
  }

  /** Unsigned 16-bit value of two bytes, in either byte order. */
  function U16(s: seq<byte>, bigEndian: bool): nat
    requires |s| == 2
  {
    if bigEndian then s[0] as int * 0x100 + s[1] else s[1] as int * 0x100 + s[0]
  }

  /** Unsigned 32-bit value of four bytes, in either byte order. */
  function U32(s: seq<byte>, bigEndian: bool): nat
    requires |s| == 4
  {
    if bigEndian then s[0] as int * 0x100_0000 + s[1] as int * 0x1_0000 + s[2] as int * 0x100 + s[3]
    else s[3] as int * 0x100_0000 + s[2] as int * 0x1_0000 + s[1] as int * 0x100 + s[0]
  }

  /** `struct.unpack('>H' or '<H', s)[0]`: fails unless s holds exactly 2 bytes. */
  function UnpackU16(s: seq<byte>, bigEndian: bool): (r: Option<nat>)
    ensures r.Some? <==> |s| == 2
    ensures r.Some? ==> r.value < 0x1_0000
  {
    if |s| == 2 then Some(U16(s, bigEndian)) else None
  }

  /** `struct.unpack('>I' or '<I', s)[0]`: fails unless s holds exactly 4 bytes. */
  function UnpackU32(s: seq<byte>, bigEndian: bool): (r: Option<nat>)
    ensures r.Some? <==> |s| == 4
    ensures r.Some? ==> r.value < 0x1_0000_0000
  {
    if |s| == 4 then Some(U32(s, bigEndian)) else None
  }

  /** Two's-complement reading of a 32-bit pattern (format letter 'i'). */
  function Signed32(u: nat): (r: int)
    requires u < 0x1_0000_0000
    ensures -0x8000_0000 <= r < 0x8000_0000
    ensures r % 0x1_0000_0000 == u
  {
    if u < 0x8000_0000 then u else u - 0x1_0000_0000
  }

  /** `struct.unpack('<ii', s)`: two little-endian signed 32-bit values; fails unless |s| == 8. */
  function UnpackI32PairLE(s: seq<byte>): (r: Option<(int, int)>)
    ensures r.Some? <==> |s| == 8
  {
    if |s| == 8 then Some((Signed32(U32(s[..4], false)), Signed32(U32(s[4..], false)))) else None
  }
}
