/** Image dimensions read from file headers (Utility/get_image_size.py):
    PNG from the IHDR chunk that follows the signature, JPEG by scanning the
    marker segments for a start-of-frame header, chosen by the file suffix.
    The file is given as its bytes. */
module ImageSize {
  import opened Vectors

  newtype byte = b: int | 0 <= b < 256

  datatype ImageError =
    | InvalidPng
    | InvalidJpeg
    | InvalidSegmentLength
    | JpegSizeNotFound
    | UnsupportedExtension(suffix: string)

  /** Width and height in pixels. */
  datatype Size = Size(width: int, height: int)

  /** The eight bytes every PNG stream starts with. */
  const PngSignature: seq<byte> := [0x89, 0x50, 0x4E, 0x47, 0x0D, 0x0A, 0x1A, 0x0A]

  /** The unsigned big-endian value of two bytes. */
  function BigEndian16(hi: byte, lo: byte): (v: int)
    ensures 0 <= v < 0x1_0000
  {
    hi as int * 0x100 + lo as int
  }

  /** The unsigned big-endian value of four bytes. */
  function BigEndian32(b: seq<byte>): (v: int)
    requires |b| == 4
    ensures 0 <= v < 0x1_0000_0000
  {
    BigEndian16(b[0], b[1]) * 0x1_0000 + BigEndian16(b[2], b[3])
  }

  /** The four big-endian bytes of a 32-bit value. */
  function BigEndianBytes32(v: int): (b: seq<byte>)
    requires 0 <= v < 0x1_0000_0000
    ensures |b| == 4
  {
    [(v / 0x100_0000) as byte, (v / 0x1_0000 % 0x100) as byte, (v / 0x100 % 0x100) as byte, (v % 0x100) as byte]
  }

  /** Decoding the encoding of a 32-bit value gives the value back. */
  lemma BigEndian32RoundTrip(v: int)
    requires 0 <= v < 0x1_0000_0000
    ensures BigEndian32(BigEndianBytes32(v)) == v
  {
    var hi, lo := v / 0x1_0000, v % 0x1_0000;
    var h1, h0, l1, l0 := hi / 0x100, hi % 0x100, lo / 0x100, lo % 0x100;
    DivModOf(v, 0x100_0000, h1, h0 * 0x1_0000 + lo);
    DivModOf(v, 0x100, hi * 0x100 + l1, l0);
    DivModOf(hi * 0x100 + l1, 0x100, hi, l1);
  }

  /** Encoding the value of four bytes gives the bytes back, so every
      four-byte word is the encoding of its value. */
  lemma BigEndianBytes32RoundTrip(b: seq<byte>)
    requires |b| == 4
    ensures BigEndianBytes32(BigEndian32(b)) == b
  {
    var v := BigEndian32(b);
    var b0, b1, b2, b3 := b[0] as int, b[1] as int, b[2] as int, b[3] as int;
    DivModOf(v, 0x100_0000, b0, b1 * 0x1_0000 + b2 * 0x100 + b3);
    DivModOf(v, 0x1_0000, b0 * 0x100 + b1, b2 * 0x100 + b3);
    DivModOf(b0 * 0x100 + b1, 0x100, b0, b1);
    DivModOf(v, 0x100, b0 * 0x1_0000 + b1 * 0x100 + b2, b3);
    DivModOf(b0 * 0x1_0000 + b1 * 0x100 + b2, 0x100, b0 * 0x100 + b1, b2);
  }

  /** Division with remainder is determined by any quotient and remainder
      that fit. */
  lemma DivModOf(v: int, d: int, q: int, r: int)
    requires d > 0 && 0 <= r < d && v == q * d + r
    ensures v / d == q && v % d == r
  {
    var q', r' := v / d, v % d;
    if q' > q {
      MulAtMost(q + 1, q', d);
    } else if q' < q {
      MulAtMost(q' + 1, q, d);
    }
  }

  lemma MulAtMost(a: int, b: int, d: int)
    requires a <= b && d >= 0
    ensures a * d <= b * d
  {
    assert b * d - a * d == (b - a) * d;
  }

  /** The size in a PNG header: the signature must open the first 24 bytes,
      and the IHDR chunk's width and height are the big-endian words at
      offsets 16 and 20. */
  function ReadPngSize(data: seq<byte>): (r: Result<Size, ImageError>)
    ensures r.Err? <==> |data| < 24 || data[..8] != PngSignature
    ensures r.Err? ==> r.error == InvalidPng
    ensures r.Ok? ==> 0 <= r.value.width < 0x1_0000_0000 && 0 <= r.value.height < 0x1_0000_0000
  {
    var header := if |data| < 24 then data else data[..24];
    if |header| < 24 || header[..8] != PngSignature then Err(InvalidPng)
    else Ok(Size(BigEndian32(header[16..20]), BigEndian32(header[20..24])))
  }

  /** A PNG header written with a given size reads back as that size,
      whatever the eight bytes of chunk length and type in between and
      whatever follows. */
  lemma PngRoundTrip(chunkStart: seq<byte>, width: int, height: int, rest: seq<byte>)
    requires |chunkStart| == 8
    requires 0 <= width < 0x1_0000_0000 && 0 <= height < 0x1_0000_0000
    ensures ReadPngSize(PngSignature + chunkStart + BigEndianBytes32(width) + BigEndianBytes32(height) + rest)
      == Ok(Size(width, height))
  {
    var data := PngSignature + chunkStart + BigEndianBytes32(width) + BigEndianBytes32(height) + rest;
    assert data[..8] == PngSignature;
    assert data[..24][16..20] == BigEndianBytes32(width);
    assert data[..24][20..24] == BigEndianBytes32(height);
    BigEndian32RoundTrip(width);
    BigEndian32RoundTrip(height);
  }

  /** Markers that stand alone, without a length: TEM and RST0 to RST7, SOI
      and EOI. */
  predicate IsStandalone(marker: byte)
  {
    marker == 0x01 || 0xD0 <= marker <= 0xD9
  }

  /** Markers followed by a two-byte segment length. */
  predicate IsSegmentMarker(marker: byte)
  {
    marker != 0xFF && !IsStandalone(marker)
  }

  /** Start-of-frame markers, whose segment holds the image size: C0 to CF
      except DHT (C4), JPG (C8) and DAC (CC). */
  predicate IsStartOfFrame(marker: byte)
  {
    0xC0 <= marker <= 0xCF && marker != 0xC4 && marker != 0xC8 && marker != 0xCC
  }

  /** The first position at or after i that is not an FF fill byte, or the
      end of the data. */
  function SkipFill(data: seq<byte>, i: nat): (j: nat)
    requires i <= |data|
    ensures i <= j <= |data|
    ensures forall k :: i <= k < j ==> data[k] == 0xFF
    ensures j == |data| || data[j] != 0xFF
    decreases |data| - i
  {
    if i == |data| || data[i] != 0xFF then i else SkipFill(data, i + 1)
  }

  /** The marker scan from position pos: bytes other than FF are skipped; an
      FF and its fill bytes lead to a marker. EOI ends the scan, other
      standalone markers are stepped over, a length below two is refused, a
      start-of-frame segment yields the size (height, then width, after the
      precision byte), and any other segment is skipped by its length. Running
      out of data anywhere ends the scan without a size. */
  function JpegScan(data: seq<byte>, pos: nat): Result<Size, ImageError>
    decreases |data| - pos
  {
    if pos >= |data| then Err(JpegSizeNotFound)
    else if data[pos] != 0xFF then JpegScan(data, pos + 1)
    else
      var m := SkipFill(data, pos + 1);
      if m == |data| then Err(JpegSizeNotFound)
      else if IsStandalone(data[m]) then
        if data[m] == 0xD9 then Err(JpegSizeNotFound) else JpegScan(data, m + 1)
      else if m + 3 > |data| then Err(JpegSizeNotFound)
      else
        var length := BigEndian16(data[m + 1], data[m + 2]);
        if length < 2 then Err(InvalidSegmentLength)
        else if IsStartOfFrame(data[m]) then
          if m + 8 > |data| then Err(JpegSizeNotFound)
          else Ok(Size(BigEndian16(data[m + 6], data[m + 7]), BigEndian16(data[m + 4], data[m + 5])))
        else JpegScan(data, m + 1 + length)
  }

  /** The size of a JPEG stream: it must open with SOI (FF D8); the scan
      starts right after it. */
  function JpegSize(data: seq<byte>): Result<Size, ImageError>
  {
    if |data| < 2 || data[0] != 0xFF || data[1] != 0xD8 then Err(InvalidJpeg)
    else JpegScan(data, 2)
  }

  /** Reads the JPEG stream with a cursor, byte by byte, as a file is read:
      a read past the end comes back empty, and a seek past the end leaves
      nothing more to read. */
  method ReadJpegSize(data: seq<byte>) returns (r: Result<Size, ImageError>)
    ensures r == JpegSize(data)
  {
    if |data| < 2 || data[0] != 0xFF || data[1] != 0xD8 {
      return Err(InvalidJpeg);
    }
    var pos: nat := 2;
    while true
      invariant JpegScan(data, pos) == JpegScan(data, 2)
      decreases |data| - pos
    {
      if pos >= |data| {
        break;
      }
      var prefix := data[pos];
      pos := pos + 1;
      if prefix != 0xFF {
        continue;
      }

      ghost var start := pos;
      var marker: Option<byte> := None;
      if pos < |data| {
        marker := Some(data[pos]);
        pos := pos + 1;
      }
      while marker == Some(0xFF)
        invariant start <= pos <= |data|
        invariant marker.Some? ==> start < pos && marker.value == data[pos - 1] && SkipFill(data, start) == SkipFill(data, pos - 1)
        invariant marker.None? ==> pos == |data| && SkipFill(data, start) == |data|
        decreases |data| - pos, marker.Some?
      {
        if pos < |data| {
          marker := Some(data[pos]);
          pos := pos + 1;
        } else {
          marker := None;
        }
      }
      if marker.None? {
        break;
      }
      var m := marker.value;

      if IsStandalone(m) {
        if m == 0xD9 {
          break;
        }
        continue;
      }

      if pos + 2 > |data| {
        break;
      }
      var length := BigEndian16(data[pos], data[pos + 1]);
      pos := pos + 2;
      if length < 2 {
        return Err(InvalidSegmentLength);
      }

      if IsStartOfFrame(m) {
        if pos + 5 > |data| {
          break;
        }
        var height := BigEndian16(data[pos + 1], data[pos + 2]);
        var width := BigEndian16(data[pos + 3], data[pos + 4]);
        return Ok(Size(width, height));
      }

      pos := pos + length - 2;
    }
    return Err(JpegSizeNotFound);
  }

  /** The smallest JPEG header that states a size: SOI, then an SOF0 segment
      of length 17 with precision 8, the height and the width. */
  function MinimalJpeg(width: int, height: int): seq<byte>
    requires 0 <= width < 0x1_0000 && 0 <= height < 0x1_0000
  {
    [0xFF, 0xD8, 0xFF, 0xC0, 0x00, 0x11, 0x08,
     (height / 0x100) as byte, (height % 0x100) as byte,
     (width / 0x100) as byte, (width % 0x100) as byte]
  }

  /** The size written into a minimal JPEG header reads back, whatever
      follows it. */
  lemma JpegRoundTrip(width: int, height: int, rest: seq<byte>)
    requires 0 <= width < 0x1_0000 && 0 <= height < 0x1_0000
    ensures JpegSize(MinimalJpeg(width, height) + rest) == Ok(Size(width, height))
  {
    var data := MinimalJpeg(width, height) + rest;
    assert data[2] == 0xFF && data[3] == 0xC0;
    assert SkipFill(data, 3) == 3;
  }

  /** Steps of the scan: a byte other than FF is passed over; FF fill bytes
      before a marker are skipped; standalone markers carry no length and EOI
      ends the scan; a length below two is refused; any other segment that is
      not a frame header is skipped by its length. */
  lemma JpegScanSteps(data: seq<byte>, pos: nat)
    requires pos < |data|
    ensures data[pos] != 0xFF ==> JpegScan(data, pos) == JpegScan(data, pos + 1)
    ensures pos + 1 < |data| && data[pos] == 0xFF && data[pos + 1] == 0xFF ==>
      JpegScan(data, pos) == JpegScan(data, pos + 1)
    ensures pos + 1 < |data| && data[pos] == 0xFF && IsStandalone(data[pos + 1]) ==>
      JpegScan(data, pos) == (if data[pos + 1] == 0xD9 then Err(JpegSizeNotFound) else JpegScan(data, pos + 2))
    ensures pos + 3 < |data| && data[pos] == 0xFF && IsSegmentMarker(data[pos + 1])
      && BigEndian16(data[pos + 2], data[pos + 3]) < 2
      ==> JpegScan(data, pos) == Err(InvalidSegmentLength)
    ensures pos + 3 < |data| && data[pos] == 0xFF && IsSegmentMarker(data[pos + 1]) && !IsStartOfFrame(data[pos + 1])
      && BigEndian16(data[pos + 2], data[pos + 3]) >= 2
      ==> JpegScan(data, pos) == JpegScan(data, pos + 2 + BigEndian16(data[pos + 2], data[pos + 3]))
    ensures pos + 9 <= |data| && data[pos] == 0xFF && IsStartOfFrame(data[pos + 1])
      && BigEndian16(data[pos + 2], data[pos + 3]) >= 2
      ==> JpegScan(data, pos) == Ok(Size(BigEndian16(data[pos + 7], data[pos + 8]), BigEndian16(data[pos + 5], data[pos + 6])))
    ensures pos + 4 <= |data| < pos + 9 && data[pos] == 0xFF && IsStartOfFrame(data[pos + 1])
      && BigEndian16(data[pos + 2], data[pos + 3]) >= 2
      ==> JpegScan(data, pos) == Err(JpegSizeNotFound)
    ensures pos + 1 == |data| ==> JpegScan(data, pos) == Err(JpegSizeNotFound)
  {
    if pos + 1 < |data| && data[pos] == 0xFF && data[pos + 1] == 0xFF {
      assert SkipFill(data, pos + 1) == SkipFill(data, pos + 2);
    }
  }

  /** A stream that does not open with SOI (FF D8) is refused before any
      scanning. */
  lemma JpegNeedsSoi(data: seq<byte>)
    ensures |data| < 2 || data[0] != 0xFF || data[1] != 0xD8 ==> JpegSize(data) == Err(InvalidJpeg)
    ensures |data| >= 2 && data[0] == 0xFF && data[1] == 0xD8 ==> JpegSize(data) == JpegScan(data, 2)
  {
  }

  /** Every size the scan reports was read from a start-of-frame header in
      the data: an FF, a frame marker at some k, then the height at k + 4 and
      the width at k + 6. A stream without such a header gives no size. */
  lemma {:induction false} JpegSizeFromFrame(data: seq<byte>, pos: nat)
    ensures JpegScan(data, pos).Ok? ==>
      exists k {:trigger data[k]} :: pos < k && k + 7 < |data| && data[k - 1] == 0xFF && IsStartOfFrame(data[k])
        && JpegScan(data, pos).value == Size(BigEndian16(data[k + 6], data[k + 7]), BigEndian16(data[k + 4], data[k + 5]))
    decreases |data| - pos
  {
    if pos < |data| {
      if data[pos] != 0xFF {
        JpegSizeFromFrame(data, pos + 1);
      } else {
        var m := SkipFill(data, pos + 1);
        if m < |data| && !IsStandalone(data[m]) && m + 3 <= |data| {
          var length := BigEndian16(data[m + 1], data[m + 2]);
          if length >= 2 && IsStartOfFrame(data[m]) && m + 8 <= |data| {
            assert data[m - 1] == 0xFF;
          } else if length >= 2 && !IsStartOfFrame(data[m]) {
            JpegSizeFromFrame(data, m + 1 + length);
          }
        } else if m < |data| && IsStandalone(data[m]) && data[m] != 0xD9 {
          JpegSizeFromFrame(data, m + 1);
        }
      }
    }
  }

  /** ASCII letters in lower case; every other character unchanged. */
  function Lower(s: string): (t: string)
    ensures |t| == |s|
    ensures forall k :: 0 <= k < |t| ==> !('A' <= t[k] <= 'Z')
    ensures forall k :: 0 <= k < |s| && 'A' <= s[k] <= 'Z' ==> t[k] as int - 'a' as int == s[k] as int - 'A' as int
    ensures forall k :: 0 <= k < |s| && !('A' <= s[k] <= 'Z') ==> t[k] == s[k]
  {
    seq(|s|, i requires 0 <= i < |s| => if 'A' <= s[i] <= 'Z' then (s[i] as int + 32) as char else s[i])
  }

  /** The index of the last occurrence of c in s, or -1 when there is none. */
  function LastIndexOf(s: string, c: char): (i: int)
    ensures -1 <= i < |s|
    ensures i >= 0 ==> s[i] == c
    ensures forall j :: i < j < |s| ==> s[j] != c
  {
    if |s| == 0 then -1
    else if s[|s| - 1] == c then |s| - 1
    else LastIndexOf(s[..|s| - 1], c)
  }

  /** The final component of a slash-separated path. */
  function FileName(path: string): string
  {
    path[LastIndexOf(path, '/') + 1..]
  }

  /** The suffix of the file name: from its last dot on, when that dot is
      neither the first nor the last character of the name; otherwise empty. */
  function Suffix(path: string): (s: string)
    ensures s == [] || (|s| >= 2 && s[0] == '.')
  {
    var name := FileName(path);
    var i := LastIndexOf(name, '.');
    if 0 < i < |name| - 1 then name[i..] else ""
  }

  /** The size of an image file with the given path and bytes, read as PNG
      or JPEG according to the suffix, in any letter case. */
  function ImageSizeOf(path: string, data: seq<byte>): Result<Size, ImageError>
  {
    var suffix := Lower(Suffix(path));
    if suffix == ".png" then ReadPngSize(data)
    else if suffix == ".jpg" || suffix == ".jpeg" then JpegSize(data)
    else Err(UnsupportedExtension(Suffix(path)))
  }

  method ReadImageSize(path: string, data: seq<byte>) returns (r: Result<Size, ImageError>)
    ensures r == ImageSizeOf(path, data)
  {
    var suffix := Lower(Suffix(path));
    if suffix == ".png" {
      return ReadPngSize(data);
    }
    if suffix == ".jpg" || suffix == ".jpeg" {
      r := ReadJpegSize(data);
      return;
    }
    return Err(UnsupportedExtension(Suffix(path)));
  }

  /** A name ending in "." followed by a dot-free, slash-free extension has
      that suffix, whatever the directories and dots before it. */
  lemma SuffixOfExtension(stem: string, ext: string)
    requires |stem| >= 1 && stem[|stem| - 1] != '/'
    requires |ext| >= 2 && ext[0] == '.'
    requires forall k :: 1 <= k < |ext| ==> ext[k] != '.' && ext[k] != '/'
    ensures Suffix(stem + ext) == ext
  {
    FileNameOfAppended(stem, ext);
    LastDotOfExtension(FileName(stem), ext);
  }

  /** Appending a slash-free extension extends the file name. */
  lemma FileNameOfAppended(stem: string, ext: string)
    requires |stem| >= 1 && stem[|stem| - 1] != '/'
    requires forall k :: 0 <= k < |ext| ==> ext[k] != '/'
    ensures |FileName(stem)| >= 1
    ensures FileName(stem + ext) == FileName(stem) + ext
  {
    LastIndexOfAppended(stem, ext, '/');
    var slash := LastIndexOf(stem, '/');
    assert (stem + ext)[slash + 1..] == stem[slash + 1..] + ext;
  }

  /** The last dot of a name followed by a dot-free extension is the
      extension's own dot. */
  lemma LastDotOfExtension(base: string, ext: string)
    requires |base| >= 1
    requires |ext| >= 1 && ext[0] == '.'
    requires forall k :: 1 <= k < |ext| ==> ext[k] != '.'
    ensures LastIndexOf(base + ext, '.') == |base|
  {
    var tail := ext[1..];
    assert base + ext == (base + ['.']) + tail;
    LastIndexOfAppended(base + ['.'], tail, '.');
  }

  /** When t has no c, the last c of s + t is the last c of s. */
  lemma {:induction false} LastIndexOfAppended(s: string, t: string, c: char)
    requires forall k :: 0 <= k < |t| ==> t[k] != c
    ensures LastIndexOf(s + t, c) == LastIndexOf(s, c)
    decreases |t|
  {
    if |t| > 0 {
      assert (s + t)[..|s + t| - 1] == s + t[..|t| - 1];
      LastIndexOfAppended(s, t[..|t| - 1], c);
    } else {
      assert s + t == s;
    }
  }

  /** Which reader a file goes to: ".png" in any case to the PNG reader,
      ".jpg" and ".jpeg" in any case to the JPEG reader, any other extension
      is refused. */
  /** A name with no suffix (no dot, a leading dot only, or a trailing dot)
      is refused with an empty suffix. */
  lemma NoSuffixRefused(path: string, data: seq<byte>)
    ensures Suffix(path) == [] ==> ImageSizeOf(path, data) == Err(UnsupportedExtension([]))
  {
    assert Lower([]) == [];
  }

  /** Names without a suffix: no dot, a dot only at the start of the name,
      and a dot only at its end. */
  lemma SuffixlessNames()
    ensures Suffix("photo") == []
    ensures Suffix("dir/.png") == []
    ensures Suffix("x.png.") == []
  {
    NoDotName();
    LeadingDotName();
    TrailingDotName();
  }

  lemma NoDotName()
    ensures Suffix("photo") == []
  {
    assert LastIndexOf("photo", '/') == -1;
    assert LastIndexOf("photo", '.') == -1;
  }

  lemma LeadingDotName()
    ensures Suffix("dir/.png") == []
  {
    assert "dir/.png"[..7] == "dir/.pn" && "dir/.pn"[..6] == "dir/.p";
    assert "dir/.p"[..5] == "dir/." && "dir/."[..4] == "dir/";
    assert LastIndexOf("dir/.png", '/') == 3;
    assert FileName("dir/.png") == ".png";
    assert ".png"[..3] == ".pn" && ".pn"[..2] == ".p" && ".p"[..1] == ".";
    assert LastIndexOf(".png", '.') == 0;
  }

  lemma TrailingDotName()
    ensures Suffix("x.png.") == []
  {
    assert LastIndexOf("x.png.", '/') == -1;
    assert LastIndexOf("x.png.", '.') == 5;
  }

  lemma DispatchByExtension(stem: string, ext: string, data: seq<byte>)
    requires |stem| >= 1 && stem[|stem| - 1] != '/'
    requires |ext| >= 2 && ext[0] == '.'
    requires forall k :: 1 <= k < |ext| ==> ext[k] != '.' && ext[k] != '/'
    ensures Lower(ext) == ".png" ==> ImageSizeOf(stem + ext, data) == ReadPngSize(data)
    ensures Lower(ext) == ".jpg" || Lower(ext) == ".jpeg" ==> ImageSizeOf(stem + ext, data) == JpegSize(data)
    ensures Lower(ext) !in {".png", ".jpg", ".jpeg"} ==> ImageSizeOf(stem + ext, data) == Err(UnsupportedExtension(ext))
  {
    SuffixOfExtension(stem, ext);
  }
}
