/**
 * Properties of the header sniffer: what it returns for each format, and
 * when it gives up.
 */
module HeaderFacts {
  import opened Wrappers
  import opened Bytes
  import opened HeaderFormats

  /** The head is the first 24 bytes; its magic slices start with the file's first two bytes. */
  lemma HeadBytes(data: seq<byte>)
    requires |data| >= HEAD_LEN
    ensures Read(data, 0, HEAD_LEN) == data[..HEAD_LEN]
    ensures forall n :: 2 <= n <= 8 ==> data[..n][0] == data[0] && data[..n][1] == data[1]
    ensures forall n :: 2 <= n <= 8 ==> data[..HEAD_LEN][..n] == data[..n]
    ensures data[..HEAD_LEN][8..12] == data[8..12] && data[..HEAD_LEN][12..16] == data[12..16]
  {
  }

  /** A file shorter than the 24-byte head is never sniffed. */
  lemma ShortInputUnknown(data: seq<byte>)
    requires |data| < HEAD_LEN
    ensures Dimensions(data) == None
  {
  }

  /** PNG: the big-endian u32s at offsets 16 and 20, with no further checks. */
  lemma PngFixedOffsets(data: seq<byte>)
    requires |data| >= HEAD_LEN && data[..8] == PNG_MAGIC
    ensures Dimensions(data) == Some(Dims(U32(data[16..20], true), U32(data[20..24], true)))
  {
    HeadBytes(data);
  }

  /** GIF87a and GIF89a: the little-endian u16s at offsets 6 and 8. */
  lemma GifFixedOffsets(data: seq<byte>)
    requires |data| >= HEAD_LEN && (data[..6] == GIF87A || data[..6] == GIF89A)
    ensures Dimensions(data) == Some(Dims(U16(data[6..8], false), U16(data[8..10], false)))
  {
    HeadBytes(data);
    var head := Read(data, 0, HEAD_LEN);
    assert head[..6] == data[..6] && head[..8] != PNG_MAGIC && head[..2] != JPEG_MAGIC;
    assert Slice(head, 6, 10) == data[6..10];
  }

  /**
   * BMP: the 24-byte head leaves only 6 bytes at `head[18:26]`, so the
   * 8-byte unpack always fails and no BMP file gets dimensions.
   */
  lemma BmpAlwaysUnknown(data: seq<byte>)
    requires |data| >= HEAD_LEN && data[..2] == BMP_MAGIC
    ensures Dimensions(data) == None
  {
    HeadBytes(data);
    var head := Read(data, 0, HEAD_LEN);
    assert head[..2] == data[..2];
    assert head[..8] != PNG_MAGIC && head[..6] != GIF87A && head[..6] != GIF89A;
    assert |Slice(head, 18, 26)| == 6;
  }

  predicate IsWebpWith(data: seq<byte>, tag: seq<byte>) {
    |data| >= HEAD_LEN && data[..4] == RIFF_TAG && data[8..12] == WEBP_TAG && data[12..16] == tag
  }

  lemma WebpDispatch(data: seq<byte>, tag: seq<byte>)
    requires IsWebpWith(data, tag)
    ensures Dimensions(data) == if IsWebpChunk(tag) then WebpDims(data, tag) else None
  {
    HeadBytes(data);
    var head := Read(data, 0, HEAD_LEN);
    assert head[..4] == data[..4] && head[8..12] == data[8..12] && head[12..16] == data[12..16];
    assert head[..8] != PNG_MAGIC && head[..6] != GIF87A && head[..6] != GIF89A;
    assert head[..2] != JPEG_MAGIC && head[..2] != BMP_MAGIC && head[..2] != TIFF_II && head[..2] != TIFF_MM;
  }

  /** WebP VP8: known exactly when the file reaches offset 30; each side is a 14-bit value. */
  lemma WebpVp8Bounds(data: seq<byte>)
    requires IsWebpWith(data, VP8_TAG)
    ensures Dimensions(data).Some? <==> |data| >= 30
    ensures Dimensions(data).Some? ==>
      Dimensions(data) == Some(Dims(U16(data[26..28], false) % 0x4000, U16(data[28..30], false) % 0x4000))
    ensures Dimensions(data).Some? ==> Dimensions(data).value.width <= 0x3fff && Dimensions(data).value.height <= 0x3fff
  {
    WebpDispatch(data, VP8_TAG);
    if |data| >= 30 {
      assert Read(data, 26, 4) == data[26..30];
    }
  }

  /** WebP VP8L: known exactly when the file reaches offset 25; each side lies in [1, 16384]. */
  lemma WebpVp8lBounds(data: seq<byte>)
    requires IsWebpWith(data, VP8L_TAG)
    ensures Dimensions(data).Some? <==> |data| >= 25
    ensures Dimensions(data).Some? ==>
      var d := Dimensions(data).value;
      1 <= d.width <= 0x4000 && 1 <= d.height <= 0x4000
  {
    WebpDispatch(data, VP8L_TAG);
  }

  /** WebP VP8X: known exactly when the file reaches offset 30; each side lies in [1, 2^24]. */
  lemma WebpVp8xBounds(data: seq<byte>)
    requires IsWebpWith(data, VP8X_TAG)
    ensures Dimensions(data).Some? <==> |data| >= 30
    ensures Dimensions(data).Some? ==>
      var d := Dimensions(data).value;
      1 <= d.width <= 0x100_0000 && 1 <= d.height <= 0x100_0000
  {
    WebpDispatch(data, VP8X_TAG);
    var d := Read(data, 24, 6);
    if |data| >= 30 {
      assert |Slice(d, 0, 3) + [0]| == 4 && |Slice(d, 3, 6) + [0]| == 4;
      var w := U32(Slice(d, 0, 3) + [0], false);
      var h := U32(Slice(d, 3, 6) + [0], false);
      assert w < 0x100_0000 && h < 0x100_0000;
    } else {
      assert |Slice(d, 3, 6) + [0]| != 4;
    }
  }

  /** A RIFF/WEBP file whose first chunk is not VP8, VP8L or VP8X is not sniffed. */
  lemma WebpOtherChunkUnknown(data: seq<byte>, tag: seq<byte>)
    requires IsWebpWith(data, tag) && !IsWebpChunk(tag)
    ensures Dimensions(data) == None
  {
    WebpDispatch(data, tag);
  }

  /** TIFF: `II` selects little-endian and `MM` big-endian for every later read. */
  lemma TiffByteOrder(data: seq<byte>)
    requires |data| >= HEAD_LEN && (data[..2] == TIFF_II || data[..2] == TIFF_MM)
    ensures Dimensions(data) == TiffDims(data, data[..2] == TIFF_MM)
  {
    HeadBytes(data);
    var head := Read(data, 0, HEAD_LEN);
    assert head[..2] == data[..2];
    assert head[..8] != PNG_MAGIC && head[..6] != GIF87A && head[..6] != GIF89A;
    assert head[..4] != RIFF_TAG;
  }

  // ---------------------------------------------------------------- JPEG

  /** FindFF finds the first 0xFF at or after `from`, and fails exactly when there is none. */
  lemma {:induction false} FindFFIsFirst(data: seq<byte>, from: nat)
    ensures FindFF(data, from).Some? ==>
      forall k :: from <= k < FindFF(data, from).value ==> data[k] != 0xFF
    ensures FindFF(data, from).None? <==> forall k :: from <= k < |data| ==> data[k] != 0xFF
    decreases |data| - from
  {
    if from < |data| && data[from] != 0xFF {
      FindFFIsFirst(data, from + 1);
    }
  }

  /** SkipFill finds the first byte other than 0xFF at or after `from`, failing exactly at an all-0xFF tail. */
  lemma {:induction false} SkipFillIsFirst(data: seq<byte>, from: nat)
    ensures SkipFill(data, from).Some? ==>
      forall k :: from <= k < SkipFill(data, from).value ==> data[k] == 0xFF
    ensures SkipFill(data, from).None? <==> forall k :: from <= k < |data| ==> data[k] == 0xFF
    decreases |data| - from
  {
    if from < |data| && data[from] == 0xFF {
      SkipFillIsFirst(data, from + 1);
    }
  }

  /** A byte run that holds no 0xFF at all yields no marker, hence no dimensions. */
  lemma JpegWithoutMarkerUnknown(data: seq<byte>)
    requires |data| >= HEAD_LEN && data[..2] == JPEG_MAGIC
    requires forall k :: 2 <= k < |data| ==> data[k] != 0xFF
    ensures Dimensions(data) == None
  {
    HeadBytes(data);
    var head := Read(data, 0, HEAD_LEN);
    assert head[..2] == data[..2] && head[..8] != PNG_MAGIC;
    FindFFIsFirst(data, 2);
  }

  /** A Start-Of-Frame segment header ending at `p`, with its frame fields readable. */
  predicate SofAt(data: seq<byte>, p: nat, d: Dims) {
    && 4 <= p && p + 5 <= |data|
    && data[p - 4] == 0xFF && IsSof(data[p - 3])
    && U16(data[p - 2..p], true) - 2 >= 5
    && d == Dims(U16(data[p + 3..p + 5], true), U16(data[p + 1..p + 3], true))
  }

  /**
   * Whatever the walk returns comes from a Start-Of-Frame marker preceded by
   * 0xFF, whose length is at least 7, read big-endian past the precision byte.
   */
  lemma {:induction false} JpegWalkSound(data: seq<byte>, start: nat, d: Dims)
    requires JpegWalk(data, start) == Some(d)
    ensures exists p :: start + 4 <= p && SofAt(data, p, d)
    decreases WalkMeasure(data, start)
  {
    var seg := NextSegment(data, start).value;
    JpegWalkStep(data, start, seg);
    if IsSof(seg.marker) {
      SofSegmentSound(data, start, seg, d);
    } else {
      JpegWalkSound(data, seg.body + seg.size, d);
    }
  }

  /** Dimensions read off a Start-Of-Frame segment satisfy SofAt at its body. */
  lemma SofSegmentSound(data: seq<byte>, start: nat, seg: Segment, d: Dims)
    requires NextSegment(data, start) == Some(seg) && IsSof(seg.marker)
    requires SofDims(data, seg) == Some(d)
    ensures start + 4 <= seg.body && SofAt(data, seg.body, d)
  {
    var p := seg.body;
    assert Read(data, p, 1) == [data[p]];
    assert Read(data, p + 1, 4) == data[p + 1..p + 5];
  }

  /** The JPEG result read off some Start-Of-Frame segment past the SOI marker. */
  lemma JpegResultFromSof(data: seq<byte>, d: Dims)
    requires |data| >= HEAD_LEN && data[..2] == JPEG_MAGIC
    requires Dimensions(data) == Some(d)
    ensures exists p :: 6 <= p && SofAt(data, p, d)
  {
    HeadBytes(data);
    var head := Read(data, 0, HEAD_LEN);
    assert head[..2] == data[..2] && head[..8] != PNG_MAGIC;
    JpegWalkSound(data, 2, d);
  }

  /** The common layout: SOI immediately followed by a Start-Of-Frame marker. */
  lemma JpegLeadingSof(data: seq<byte>)
    requires |data| >= HEAD_LEN && data[..2] == JPEG_MAGIC
    requires data[2] == 0xFF && IsSof(data[3]) && U16(data[4..6], true) >= 7
    ensures Dimensions(data) == Some(Dims(U16(data[9..11], true), U16(data[7..9], true)))
  {
    HeadBytes(data);
    var head := Read(data, 0, HEAD_LEN);
    assert head[..2] == data[..2] && head[..8] != PNG_MAGIC;
    assert FindFF(data, 2) == Some(2);
    assert SkipFill(data, 3) == Some(3);
    assert Read(data, 4, 2) == data[4..6];
    assert NextSegment(data, 2) == Some(Segment(data[3], 6, U16(data[4..6], true) - 2));
    assert Read(data, 7, 4) == data[7..11];
  }

  // ---------------------------------------------------------------- TIFF

  /** (width, height) after the first k directory entries, the later entry of a tag winning. */
  function TiffAccum(data: seq<byte>, bigEndian: bool, pos: nat, k: nat, wh: (nat, nat)): (nat, nat)
    requires pos + 12 * k <= |data|
    decreases k
  {
    if k == 0 then wh
    else TiffAccum(data, bigEndian, pos + 12, k - 1, TiffStep(data[pos..pos + 12], bigEndian, wh))
  }

  /** Entry k (counting from 1) is the first after which both values are non-zero, and they are d. */
  predicate FirstCompleteAt(data: seq<byte>, bigEndian: bool, pos: nat, k: nat, wh: (nat, nat), d: Dims) {
    && pos + 12 * k <= |data|
    && Complete(TiffAccum(data, bigEndian, pos, k, wh))
    && d == Dims(TiffAccum(data, bigEndian, pos, k, wh).0, TiffAccum(data, bigEndian, pos, k, wh).1)
    && forall j :: 1 <= j < k ==> !Complete(TiffAccum(data, bigEndian, pos, j, wh))
  }

  /** Some entry among the first n is the first complete one, with values d. */
  predicate FirstCompleteIn(data: seq<byte>, bigEndian: bool, pos: nat, n: nat, wh: (nat, nat), d: Dims) {
    exists k :: 1 <= k <= n && FirstCompleteAt(data, bigEndian, pos, k, wh, d)
  }

  /** Dropping the first entry shifts the position of the first complete entry by one. */
  lemma FirstCompleteShift(data: seq<byte>, bigEndian: bool, pos: nat, k: nat, wh: (nat, nat), d: Dims)
    requires 1 <= k && pos + 12 <= |data|
    ensures var wh' := TiffStep(data[pos..pos + 12], bigEndian, wh);
      FirstCompleteAt(data, bigEndian, pos, k + 1, wh, d) <==>
        !Complete(wh') && FirstCompleteAt(data, bigEndian, pos + 12, k, wh', d)
  {
    var wh' := TiffStep(data[pos..pos + 12], bigEndian, wh);
    var next := pos + 12;
    assert TiffAccum(data, bigEndian, pos, 1, wh) == wh';
    if pos + 12 * (k + 1) <= |data| {
      if FirstCompleteAt(data, bigEndian, pos, k + 1, wh, d) {
        forall j | 1 <= j < k ensures !Complete(TiffAccum(data, bigEndian, next, j, wh')) {
          assert !Complete(TiffAccum(data, bigEndian, pos, j + 1, wh));
        }
        assert TiffAccum(data, bigEndian, pos, k + 1, wh) == TiffAccum(data, bigEndian, next, k, wh');
      }
      if !Complete(wh') && FirstCompleteAt(data, bigEndian, next, k, wh', d) {
        forall j | 1 <= j < k + 1 ensures !Complete(TiffAccum(data, bigEndian, pos, j, wh)) {
          if j > 1 {
            assert !Complete(TiffAccum(data, bigEndian, next, j - 1, wh'));
          }
        }
        assert TiffAccum(data, bigEndian, pos, k + 1, wh) == TiffAccum(data, bigEndian, next, k, wh');
      }
    }
  }

  /**
   * The entry loop returns d exactly when some entry k among the n is the
   * first after which both values are non-zero and they are d; it returns
   * None when the count runs out first or an entry is cut short.
   */
  lemma {:induction false} TiffFirstComplete(data: seq<byte>, bigEndian: bool, pos: nat, n: nat, wh: (nat, nat), d: Dims)
    ensures TiffEntries(data, bigEndian, pos, n, wh) == Some(d) <==> FirstCompleteIn(data, bigEndian, pos, n, wh, d)
    decreases n
  {
    if n == 0 {
      return;
    }
    if pos + 12 > |data| {
      assert |Read(data, pos, 12)| < 12;
      forall k | 1 <= k ensures !FirstCompleteAt(data, bigEndian, pos, k, wh, d) {
      }
      return;
    }
    var entry := Read(data, pos, 12);
    assert entry == data[pos..pos + 12];
    var wh' := TiffStep(entry, bigEndian, wh);
    assert TiffAccum(data, bigEndian, pos, 1, wh) == wh';
    if Complete(wh') {
      if TiffEntries(data, bigEndian, pos, n, wh) == Some(d) {
        assert FirstCompleteAt(data, bigEndian, pos, 1, wh, d);
      }
      forall k | 2 <= k <= n ensures !FirstCompleteAt(data, bigEndian, pos, k, wh, d) {
        FirstCompleteShift(data, bigEndian, pos, k - 1, wh, d);
      }
      return;
    }
    assert TiffEntries(data, bigEndian, pos, n, wh) == TiffEntries(data, bigEndian, pos + 12, n - 1, wh');
    TiffFirstComplete(data, bigEndian, pos + 12, n - 1, wh', d);
    if TiffEntries(data, bigEndian, pos, n, wh) == Some(d) {
      var k :| 1 <= k <= n - 1 && FirstCompleteAt(data, bigEndian, pos + 12, k, wh', d);
      FirstCompleteShift(data, bigEndian, pos, k, wh, d);
    }
    if exists k :: 1 <= k <= n && FirstCompleteAt(data, bigEndian, pos, k, wh, d) {
      var k :| 1 <= k <= n && FirstCompleteAt(data, bigEndian, pos, k, wh, d);
      assert k != 1;
      FirstCompleteShift(data, bigEndian, pos, k - 1, wh, d);
    }
  }

  /**
   * TIFF as a whole: the first IFD's offset is the u32 at byte 4, its entry
   * count the u16 there, and the result comes from its first complete entry.
   */
  lemma TiffDimsFirstComplete(data: seq<byte>, bigEndian: bool, d: Dims)
    requires |data| >= HEAD_LEN
    ensures TiffDims(data, bigEndian) == Some(d) <==>
      var offset := U32(data[4..8], bigEndian);
      && offset + 2 <= |data|
      && FirstCompleteIn(data, bigEndian, offset + 2, U16(data[offset..offset + 2], bigEndian), (0, 0), d)
  {
    var offset := U32(data[4..8], bigEndian);
    assert Read(data, 4, 4) == data[4..8];
    if offset + 2 <= |data| {
      assert Read(data, offset, 2) == data[offset..offset + 2];
      TiffFirstComplete(data, bigEndian, offset + 2, U16(data[offset..offset + 2], bigEndian), (0, 0), d);
    }
  }
}
