/**
 * What `get_image_dimensions` computes, format by format, as functions of
 * the file's bytes. Every `struct.unpack` that app.py guards with its
 * blanket `except` is an Option here: a short read or a slice of the wrong
 * length yields None, never an error.
 */
module HeaderFormats {
  import opened Wrappers
  import opened Bytes

  datatype Dims = Dims(width: nat, height: nat)

  /** Bytes read up front; shorter files are never sniffed. */
  const HEAD_LEN: nat := 24

  const PNG_MAGIC: seq<byte> := [0x89, 0x50, 0x4E, 0x47, 0x0D, 0x0A, 0x1A, 0x0A]
  const JPEG_MAGIC: seq<byte> := [0xFF, 0xD8]
  const GIF87A: seq<byte> := [0x47, 0x49, 0x46, 0x38, 0x37, 0x61]  // "GIF87a"
  const GIF89A: seq<byte> := [0x47, 0x49, 0x46, 0x38, 0x39, 0x61]  // "GIF89a"
  const BMP_MAGIC: seq<byte> := [0x42, 0x4D]                       // "BM"
  const RIFF_TAG: seq<byte> := [0x52, 0x49, 0x46, 0x46]            // "RIFF"
  const WEBP_TAG: seq<byte> := [0x57, 0x45, 0x42, 0x50]            // "WEBP"
  const VP8_TAG: seq<byte> := [0x56, 0x50, 0x38, 0x20]             // "VP8 "
  const VP8L_TAG: seq<byte> := [0x56, 0x50, 0x38, 0x4C]            // "VP8L"
  const VP8X_TAG: seq<byte> := [0x56, 0x50, 0x38, 0x58]            // "VP8X"
  const TIFF_II: seq<byte> := [0x49, 0x49]                         // "II", little-endian
  const TIFF_MM: seq<byte> := [0x4D, 0x4D]                         // "MM", big-endian

  const TAG_IMAGE_WIDTH: nat := 256
  const TAG_IMAGE_LENGTH: nat := 257

  function Abs(x: int): nat {
    if x < 0 then -x else x
  }

  // ---------------------------------------------------------------- PNG

  /** IHDR width and height: big-endian u32s at offsets 16 and 20. */
  function PngDims(data: seq<byte>): Option<Dims> {
    var s := Read(data, 16, 8);
    if |s| != 8 then None else Some(Dims(U32(s[..4], true), U32(s[4..], true)))
  }

  // ---------------------------------------------------------------- GIF

  /** Logical Screen Descriptor: little-endian u16s right after the 6-byte signature. */
  function GifDims(head: seq<byte>): Option<Dims> {
    var s := Slice(head, 6, 10);
    if |s| != 4 then None else Some(Dims(U16(s[..2], false), U16(s[2..], false)))
  }

  // ---------------------------------------------------------------- BMP

  /** `struct.unpack('<ii', head[18:26])` on the 24-byte head: the slice is too short. */
  function BmpDims(head: seq<byte>): Option<Dims> {
    var wh :- UnpackI32PairLE(Slice(head, 18, 26));
    Some(Dims(Abs(wh.0), Abs(wh.1)))
  }

  // ---------------------------------------------------------------- WebP

  predicate IsWebpChunk(tag: seq<byte>) {
    tag == VP8_TAG || tag == VP8L_TAG || tag == VP8X_TAG
  }

  /**
   * VP8 (lossy): 14-bit width and height at file offset 26; VP8L (lossless):
   * two 14-bit fields (minus one) packed in the u32 at offset 21; VP8X
   * (extended): two 24-bit fields (minus one) at offset 24. A mask
   * `& 0x3fff` is `% 0x4000` and a shift `>> 14` is `/ 0x4000` on naturals.
   */
  function WebpDims(data: seq<byte>, tag: seq<byte>): Option<Dims>
    requires IsWebpChunk(tag)
  {
    if tag == VP8_TAG then
      var d := Read(data, 26, 4);
      var w :- UnpackU16(Slice(d, 0, 2), false);
      var h :- UnpackU16(Slice(d, 2, 4), false);
      Some(Dims(w % 0x4000, h % 0x4000))
    else if tag == VP8L_TAG then
      var bits :- UnpackU32(Read(data, 21, 4), false);
      Some(Dims(bits % 0x4000 + 1, (bits / 0x4000) % 0x4000 + 1))
    else
      var d := Read(data, 24, 6);
      var w :- UnpackU32(Slice(d, 0, 3) + [0], false);
      var h :- UnpackU32(Slice(d, 3, 6) + [0], false);
      Some(Dims(w + 1, h + 1))
  }

  // ---------------------------------------------------------------- JPEG

  /** Start-Of-Frame markers: C0..CF except DHT (C4), JPG (C8) and DAC (CC). */
  predicate IsSof(t: byte) {
    0xC0 <= t <= 0xCF && t != 0xC4 && t != 0xC8 && t != 0xCC
  }

  /** Position of the first 0xFF at or after `from`: the scan for a marker prefix. */
  function FindFF(data: seq<byte>, from: nat): (r: Option<nat>)
    ensures r.Some? ==> from <= r.value < |data| && data[r.value] == 0xFF
    decreases |data| - from
  {
    if from >= |data| then None
    else if data[from] == 0xFF then Some(from)
    else FindFF(data, from + 1)
  }

  /** Position of the first byte other than 0xFF at or after `from`: fill bytes are skipped. */
  function SkipFill(data: seq<byte>, from: nat): (r: Option<nat>)
    ensures r.Some? ==> from <= r.value < |data| && data[r.value] != 0xFF
    decreases |data| - from
  {
    if from >= |data| then None
    else if data[from] != 0xFF then Some(from)
    else SkipFill(data, from + 1)
  }

  /**
   * A marker segment as the scan meets it: the marker byte, the position
   * just past its two length bytes, and the length field minus 2.
   */
  datatype Segment = Segment(marker: byte, body: nat, size: int)

  /** The next marker segment whose search starts at `start`. */
  function NextSegment(data: seq<byte>, start: nat): (r: Option<Segment>)
    ensures r.Some? ==> start + 4 <= r.value.body <= |data| && -2 <= r.value.size
    ensures r.Some? ==> data[r.value.body - 3] == r.value.marker && data[r.value.body - 4] == 0xFF
    ensures r.Some? ==> r.value.size == U16(data[r.value.body - 2..r.value.body], true) - 2
  {
    var i :- FindFF(data, start);
    var j :- SkipFill(data, i + 1);
    var len :- UnpackU16(Read(data, j + 1, 2), true);
    FillPrecedes(data, i, j);
    Some(Segment(data[j], j + 3, len - 2))
  }

  lemma FillPrecedes(data: seq<byte>, i: nat, j: nat)
    requires i < |data| && data[i] == 0xFF && SkipFill(data, i + 1) == Some(j)
    ensures data[j - 1] == 0xFF
  {
    SkipFillAllFF(data, i + 1, j);
  }

  lemma SkipFillAllFF(data: seq<byte>, from: nat, j: nat)
    requires SkipFill(data, from) == Some(j)
    ensures forall k :: from <= k < j ==> data[k] == 0xFF
    decreases |data| - from
  {
    if from < |data| && data[from] == 0xFF {
      SkipFillAllFF(data, from + 1, j);
    }
  }

  /**
   * At a Start-Of-Frame segment: a segment body shorter than 5 bytes fails;
   * otherwise precision (1 byte), height and width (big-endian u16s).
   */
  function SofDims(data: seq<byte>, seg: Segment): Option<Dims> {
    if seg.size < 5 then None
    else
      var p := seg.body + |Read(data, seg.body, 1)|;
      var hw := Read(data, p, 4);
      if |hw| != 4 then None else Some(Dims(U16(hw[2..], true), U16(hw[..2], true)))
  }

  function WalkMeasure(data: seq<byte>, start: nat): nat {
    if start <= |data| then |data| - start else 0
  }

  /** The segment walk: skip `size` bytes past every non-SOF segment. */
  function JpegWalk(data: seq<byte>, start: nat): Option<Dims>
    decreases WalkMeasure(data, start)
  {
    match NextSegment(data, start)
    case None => None
    case Some(seg) =>
      if IsSof(seg.marker) then SofDims(data, seg)
      else JpegWalk(data, seg.body + seg.size)
  }

  /** With no further marker the walk gives up. */
  lemma JpegWalkEnd(data: seq<byte>, start: nat)
    requires NextSegment(data, start).None?
    ensures JpegWalk(data, start) == None
  {
  }

  /** One segment of the walk: stop at a Start-Of-Frame marker, otherwise skip its body. */
  lemma JpegWalkStep(data: seq<byte>, start: nat, seg: Segment)
    requires NextSegment(data, start) == Some(seg)
    ensures IsSof(seg.marker) ==> JpegWalk(data, start) == SofDims(data, seg)
    ensures !IsSof(seg.marker) ==> JpegWalk(data, start) == JpegWalk(data, seg.body + seg.size)
  {
  }

  /** The scan starts right after the 2-byte SOI marker. */
  function JpegDims(data: seq<byte>): Option<Dims> {
    JpegWalk(data, 2)
  }

  // ---------------------------------------------------------------- TIFF

  /** Effect of one 12-byte directory entry on the (width, height) found so far; 0 means not yet found. */
  function TiffStep(entry: seq<byte>, bigEndian: bool, wh: (nat, nat)): (nat, nat)
    requires |entry| == 12
  {
    var tag := U16(entry[..2], bigEndian);
    var value := U32(entry[8..12], bigEndian);
    if tag == TAG_IMAGE_WIDTH then (value, wh.1)
    else if tag == TAG_IMAGE_LENGTH then (wh.0, value)
    else wh
  }

  predicate Complete(wh: (nat, nat)) {
    wh.0 != 0 && wh.1 != 0
  }

  /** The entry loop: at most `remaining` entries, stopping once both values are non-zero. */
  function TiffEntries(data: seq<byte>, bigEndian: bool, pos: nat, remaining: nat, wh: (nat, nat)): Option<Dims>
    decreases remaining
  {
    if remaining == 0 then None
    else
      var entry := Read(data, pos, 12);
      if |entry| < 12 then None
      else
        var wh' := TiffStep(entry, bigEndian, wh);
        if Complete(wh') then Some(Dims(wh'.0, wh'.1))
        else TiffEntries(data, bigEndian, pos + 12, remaining - 1, wh')
  }

  /** Header: byte order, offset of the first IFD, its entry count, then the entries. */
  function TiffDims(data: seq<byte>, bigEndian: bool): Option<Dims> {
    var offset :- UnpackU32(Read(data, 4, 4), bigEndian);
    var count :- UnpackU16(Read(data, offset, 2), bigEndian);
    TiffEntries(data, bigEndian, offset + 2, count, (0, 0))
  }

  // ---------------------------------------------------------------- dispatch

  /** Magic-number dispatch in app.py's order; an unknown WebP chunk falls through. */
  function Dimensions(data: seq<byte>): Option<Dims> {
    var head := Read(data, 0, HEAD_LEN);
    if |head| < HEAD_LEN then None
    else if head[..8] == PNG_MAGIC then PngDims(data)
    else if head[..2] == JPEG_MAGIC then JpegDims(data)
    else if head[..6] == GIF87A || head[..6] == GIF89A then GifDims(head)
    else if head[..2] == BMP_MAGIC then BmpDims(head)
    else if head[..4] == RIFF_TAG && head[8..12] == WEBP_TAG && IsWebpChunk(head[12..16]) then
      WebpDims(data, head[12..16])
    else if head[..2] == TIFF_II || head[..2] == TIFF_MM then TiffDims(data, head[..2] == TIFF_MM)
    else None
  }
}
