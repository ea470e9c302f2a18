/**
 * `get_image_dimensions` as app.py runs it: a file position that the
 * JPEG marker scan and the TIFF directory loop move forward, read by read.
 * Each method is proved to compute the functions of HeaderFormats.
 */
module HeaderSniffer {
  import opened Wrappers
  import opened Bytes
  import opened HeaderFormats

  /** Dimensions of an image file, or None when the header cannot be read. */
  method GetImageDimensions(data: seq<byte>) returns (r: Option<Dims>)
    ensures r == Dimensions(data)
  {
    var head := Read(data, 0, HEAD_LEN);
    if |head| < HEAD_LEN {
      return None;
    }
    if head[..8] == PNG_MAGIC {
      return PngDims(data);
    }
    if head[..2] == JPEG_MAGIC {
      r := ScanJpeg(data);
      return;
    }
    if head[..6] == GIF87A || head[..6] == GIF89A {
      return GifDims(head);
    }
    if head[..2] == BMP_MAGIC {
      return BmpDims(head);
    }
    if head[..4] == RIFF_TAG && head[8..12] == WEBP_TAG && IsWebpChunk(head[12..16]) {
      return WebpDims(data, head[12..16]);
    }
    if head[..2] == TIFF_II || head[..2] == TIFF_MM {
      r := ScanTiff(data, head[..2] == TIFF_MM);
      return;
    }
    return None;
  }

  /** The JPEG marker scan: find the Start-Of-Frame segment, then read its dimensions. */
  method ScanJpeg(data: seq<byte>) returns (r: Option<Dims>)
    ensures r == JpegDims(data)
  {
    var found, ftype, pos, size := FindSof(data);
    if !found {
      return None;
    }
    if size < 5 {
      return None;
    }
    var precision := Read(data, pos, 1);
    pos := pos + |precision|;
    var hw := Read(data, pos, 4);
    if |hw| != 4 {
      return None;
    }
    r := Some(Dims(U16(hw[2..], true), U16(hw[..2], true)));
  }

  /**
   * The outer loop of the scan: seek past each segment's body until a
   * Start-Of-Frame marker; `found` is false where app.py returns None.
   */
  method FindSof(data: seq<byte>) returns (found: bool, ftype: byte, pos: nat, size: int)
    ensures found ==> IsSof(ftype) && SofDims(data, Segment(ftype, pos, size)) == JpegDims(data)
    ensures !found ==> JpegDims(data) == None
  {
    pos, size, ftype := 0, 2, 0;
    ghost var goal := JpegDims(data);
    while !IsSof(ftype)
      invariant -2 <= size && 0 <= pos + size
      invariant pos <= |data|
      invariant !IsSof(ftype) ==> JpegWalk(data, pos + size) == goal
      invariant IsSof(ftype) ==> SofDims(data, Segment(ftype, pos, size)) == goal
      decreases |data| - pos
    {
      pos := pos + size;  // f.seek(size, 1)
      ghost var start := pos;
      var ok;
      ok, ftype, pos, size := ReadMarker(data, pos);
      if !ok {
        JpegWalkEnd(data, start);
        return false, ftype, pos, size;
      }
      JpegWalkStep(data, start, Segment(ftype, pos, size));
    }
    found := true;
  }

  /**
   * One pass of the scan's outer loop from the position after `f.seek(size, 1)`:
   * find a 0xFF, skip fill bytes, read the marker byte and the segment length.
   * The position returned is just past the two length bytes.
   */
  method ReadMarker(data: seq<byte>, start: nat) returns (ok: bool, ftype: byte, pos: nat, size: int)
    ensures ok <==> NextSegment(data, start).Some?
    ensures ok ==> NextSegment(data, start) == Some(Segment(ftype, pos, size))
  {
    var b;
    b, pos := ReadUntilFF(data, start);
    if |b| == 0 {
      return false, 0, pos, 0;
    }
    ghost var i := pos - 1;
    b, pos := ReadPastFill(data, pos);
    if |b| == 0 {
      return false, 0, pos, 0;
    }
    ghost var j := pos - 1;
    ftype := b[0];
    var sizeBytes := Read(data, pos, 2);
    pos := pos + |sizeBytes|;
    if |sizeBytes| < 2 {
      return false, ftype, pos, 0;
    }
    assert sizeBytes == data[j + 1..j + 3];
    size := U16(sizeBytes, true) - 2;
    ok := true;
  }

  /**
   * `byte = f.read(1)`, then `f.read(1)` again while a byte came back that is
   * not 0xFF: an empty result means no 0xFF is left, otherwise the 0xFF just
   * read is the first one at or after `pos`.
   */
  method ReadUntilFF(data: seq<byte>, pos: nat) returns (b: seq<byte>, pos': nat)
    ensures |b| <= 1
    ensures |b| == 0 ==> FindFF(data, pos) == None
    ensures |b| == 1 ==> pos < pos' <= |data| && b[0] == 0xFF && FindFF(data, pos) == Some(pos' - 1)
  {
    b := Read(data, pos, 1);
    pos' := pos + |b|;
    while |b| == 1 && b[0] != 0xFF
      invariant pos <= pos' && |b| <= 1
      invariant |b| == 0 ==> FindFF(data, pos) == None
      invariant |b| == 1 ==> pos < pos' <= |data| && b[0] == data[pos' - 1]
      invariant |b| == 1 ==> FindFF(data, pos) == FindFF(data, pos' - 1)
      decreases |data| - pos' + |b|
    {
      b := Read(data, pos', 1);
      pos' := pos' + |b|;
    }
  }

  /**
   * `byte = f.read(1)`, then again while it is 0xFF: an empty result means
   * the file ends in fill bytes, otherwise the byte read is the first one
   * other than 0xFF at or after `pos`.
   */
  method ReadPastFill(data: seq<byte>, pos: nat) returns (b: seq<byte>, pos': nat)
    ensures |b| <= 1
    ensures |b| == 0 ==> SkipFill(data, pos) == None
    ensures |b| == 1 ==> pos < pos' <= |data| && b[0] == data[pos' - 1] && SkipFill(data, pos) == Some(pos' - 1)
  {
    b := Read(data, pos, 1);
    pos' := pos + |b|;
    while |b| == 1 && b[0] == 0xFF
      invariant pos <= pos' && |b| <= 1
      invariant |b| == 0 ==> SkipFill(data, pos) == None
      invariant |b| == 1 ==> pos < pos' <= |data| && b[0] == data[pos' - 1]
      invariant |b| == 1 ==> SkipFill(data, pos) == SkipFill(data, pos' - 1)
      decreases |data| - pos' + |b|
    {
      b := Read(data, pos', 1);
      pos' := pos' + |b|;
    }
  }

  /** The TIFF header: byte order given, offset of the first directory, its entry count, then the entries. */
  method ScanTiff(data: seq<byte>, bigEndian: bool) returns (r: Option<Dims>)
    ensures r == TiffDims(data, bigEndian)
  {
    var offsetBytes := Read(data, 4, 4);
    if |offsetBytes| != 4 {
      return None;
    }
    var offset := U32(offsetBytes, bigEndian);
    var countBytes := Read(data, offset, 2);
    if |countBytes| != 2 {
      return None;
    }
    var numTags := U16(countBytes, bigEndian);
    r := ScanTiffEntries(data, bigEndian, offset + 2, numTags);
  }

  /**
   * The TIFF directory loop. Width and height start at 0, which app.py's
   * `if w and h` treats like its initial None.
   */
  method ScanTiffEntries(data: seq<byte>, bigEndian: bool, start: nat, numTags: nat) returns (r: Option<Dims>)
    ensures r == TiffEntries(data, bigEndian, start, numTags, (0, 0))
  {
    var pos: nat := start;
    var w: nat, h: nat := 0, 0;
    ghost var goal := TiffEntries(data, bigEndian, start, numTags, (0, 0));
    for k := 0 to numTags
      invariant TiffEntries(data, bigEndian, pos, numTags - k, (w, h)) == goal
    {
      ghost var pos0, wh0 := pos, (w, h);
      var tagData := Read(data, pos, 12);
      pos := pos + |tagData|;
      if |tagData| < 12 {
        // `break`, after which the function returns None
        TiffEntryShort(data, bigEndian, pos0, numTags - k, wh0);
        return None;
      }
      TiffEntryStep(data, bigEndian, pos0, numTags - k, wh0);
      var tag := U16(tagData[..2], bigEndian);
      var value := U32(tagData[8..12], bigEndian);
      if tag == TAG_IMAGE_WIDTH {
        w := value;
      } else if tag == TAG_IMAGE_LENGTH {
        h := value;
      }
      assert (w, h) == TiffStep(tagData, bigEndian, wh0);
      if w != 0 && h != 0 {
        return Some(Dims(w, h));
      }
    }
    return None;
  }

  lemma TiffEntryShort(data: seq<byte>, bigEndian: bool, pos: nat, remaining: nat, wh: (nat, nat))
    requires remaining > 0 && |Read(data, pos, 12)| < 12
    ensures TiffEntries(data, bigEndian, pos, remaining, wh) == None
  {
  }

  lemma TiffEntryStep(data: seq<byte>, bigEndian: bool, pos: nat, remaining: nat, wh: (nat, nat))
    requires remaining > 0 && |Read(data, pos, 12)| == 12
    ensures var wh' := TiffStep(Read(data, pos, 12), bigEndian, wh);
      TiffEntries(data, bigEndian, pos, remaining, wh) ==
        if Complete(wh') then Some(Dims(wh'.0, wh'.1)) else TiffEntries(data, bigEndian, pos + 12, remaining - 1, wh')
  {
  }
}
