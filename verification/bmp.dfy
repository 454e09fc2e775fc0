/** The BMP serialiser of bmp.cc (`write_bmp`): a 14-byte BITMAPFILEHEADER
    and a 40-byte BITMAPINFOHEADER, all fields little-endian, followed by the
    pixel rows stored bottom-up, three bytes per pixel, each row padded to a
    multiple of four bytes.

    The freshly allocated buffer is not cleared by the source, so its initial
    content is an input (`junk`); the bytes the source never assigns (the
    reserved header field and the row padding) keep that content. Opening
    and writing the file is not modelled: the result is the byte sequence
    handed to `fwrite`. */
module Bmp {
  import opened Arith

  type Byte = x: int | 0 <= x < 256

  const U32Limit: nat := 0x1_0000_0000
  const HeaderSize: nat := 54

  /** `(w * 3 + 3) / 4 * 4`: the length of a stored row. */
  function OutPitch(w: nat): nat
  {
    (w * 3 + 3) / 4 * 4
  }

  /** A stored row is the shortest multiple of four bytes that holds three
      bytes per pixel. */
  lemma OutPitchBounds(w: nat)
    ensures OutPitch(w) % 4 == 0
    ensures 3 * w <= OutPitch(w) < 3 * w + 4
  {
    var q := (w * 3 + 3) / 4;
    assert w * 3 + 3 == 4 * q + (w * 3 + 3) % 4;
  }

  function FileSize(w: nat, h: nat): nat
  {
    HeaderSize + OutPitch(w) * h
  }

  // ---------------------------------------------------------------------
  // Little-endian fields

  function Le16(v: nat): (r: seq<Byte>)
    requires v < 0x1_0000
    ensures |r| == 2
  {
    [v % 256, v / 256]
  }

  function Le32(v: nat): (r: seq<Byte>)
    requires v < U32Limit
    ensures |r| == 4
  {
    [v % 256, v / 256 % 256, v / 0x1_0000 % 256, v / 0x100_0000]
  }

  function DecodeLe16(s: seq<Byte>, off: nat): nat
    requires off + 2 <= |s|
  {
    s[off] as int + 256 * s[off + 1] as int
  }

  function DecodeLe32(s: seq<Byte>, off: nat): nat
    requires off + 4 <= |s|
  {
    s[off] as int + 256 * s[off + 1] as int + 0x1_0000 * s[off + 2] as int + 0x100_0000 * s[off + 3] as int
  }

  /** Decoding an encoded field gives back its value. */
  lemma Le32RoundTrip(v: nat)
    requires v < U32Limit
    ensures DecodeLe32(Le32(v), 0) == v
  {
    var b0, q0 := v % 256, v / 256;
    var b1, q1 := q0 % 256, q0 / 256;
    var b2, b3 := q1 % 256, q1 / 256;
    assert v == b0 + 256 * q0;
    assert q0 == b1 + 256 * q1;
    assert q1 == b2 + 256 * b3;
    assert v / 0x1_0000 == q1;
    assert v / 0x100_0000 == b3;
  }

  lemma Le16RoundTrip(v: nat)
    requires v < 0x1_0000
    ensures DecodeLe16(Le16(v), 0) == v
  {
  }

  /** Four bytes are the encoding of the value they decode to. */
  lemma Le32Canonical(s: seq<Byte>)
    requires |s| == 4
    ensures DecodeLe32(s, 0) < U32Limit
    ensures Le32(DecodeLe32(s, 0)) == s
  {
    var v := DecodeLe32(s, 0);
    var q1: int := s[2] as int + 256 * s[3] as int;
    var q0: int := s[1] as int + 256 * q1;
    assert v == s[0] as int + 256 * q0;
    DivModUnique(v, 256, q0, s[0]);
    DivModUnique(q0, 256, q1, s[1]);
    DivModUnique(q1, 256, s[3], s[2]);
    DivModUnique(v, 0x1_0000, q1, s[0] as int + 256 * s[1] as int);
    DivModUnique(v, 0x100_0000, s[3], s[0] as int + 256 * s[1] as int + 0x1_0000 * s[2] as int);
  }

  // ---------------------------------------------------------------------
  // The file the source produces

  /** Arguments of `write_bmp`: width, height, the distance between pixels
      and between rows of the input, and the input bytes (blue, green, red
      first in every pixel). */
  datatype Image = Image(w: nat, h: nat, stride: nat, pitch: nat, color: seq<Byte>)

  /** What `write_bmp` needs: 32-bit sizes that do not wrap, `pitch * h`
      input bytes, and pixels that fit in their row. */
  predicate Valid(img: Image)
  {
    img.w < U32Limit && img.h < U32Limit && img.stride < U32Limit && img.pitch < U32Limit &&
    FileSize(img.w, img.h) < U32Limit &&
    img.pitch * img.h < U32Limit &&
    img.pitch * img.h <= |img.color| &&
    (img.w > 0 ==> (img.w - 1) * img.stride + 3 <= img.pitch)
  }

  /** Output position of byte j of stored row y, rows being op bytes long. */
  function RowPos(op: nat, y: nat, j: nat): nat
  {
    HeaderSize + y * op + j
  }

  /** Output position of channel c of pixel x in stored row y. */
  function Dst(img: Image, y: nat, x: nat, c: nat): nat
  {
    RowPos(OutPitch(img.w), y, 3 * x + c)
  }

  /** Input position of the same sample: stored row y is image row h-1-y. */
  function Src(img: Image, y: nat, x: nat, c: nat): int
  {
    (img.h - 1 - y) * img.pitch + x * img.stride + c
  }

  /** Byte k of the 54-byte header of a w x h image whose file has
      `fileSize` bytes and whose pixel array has `imageSize` bytes;
      `reserved` is what bytes 6..9 happen to hold. */
  function HeaderByte(fileSize: nat, w: nat, h: nat, imageSize: nat, reserved: seq<Byte>, k: nat): Byte
    requires fileSize < U32Limit && w < U32Limit && h < U32Limit && imageSize < U32Limit
    requires |reserved| == 4 && k < HeaderSize
  {
    if k < 0x02 then [66, 77][k]                                // "BM"
    else if k < 0x06 then Le32(fileSize)[k - 0x02]
    else if k < 0x0A then reserved[k - 0x06]
    else if k < 0x0E then Le32(HeaderSize)[k - 0x0A]            // pixel offset
    else if k < 0x12 then Le32(40)[k - 0x0E]                    // info header size
    else if k < 0x16 then Le32(w)[k - 0x12]
    else if k < 0x1A then Le32(h)[k - 0x16]
    else if k < 0x1C then Le16(1)[k - 0x1A]                     // planes
    else if k < 0x1E then Le16(24)[k - 0x1C]                    // bits per pixel
    else if k < 0x22 then Le32(0)[k - 0x1E]                     // no compression
    else if k < 0x26 then Le32(imageSize)[k - 0x22]
    else if k < 0x2A then Le32(2835)[k - 0x26]                  // pixels per metre
    else if k < 0x2E then Le32(2835)[k - 0x2A]
    else if k < 0x32 then Le32(0)[k - 0x2E]                     // palette colours
    else Le32(0)[k - 0x32]                                      // important colours
  }

  /** Byte k of the output file, given the initial content `junk` of the
      buffer. */
  function FileByte(img: Image, junk: seq<Byte>, k: nat): Byte
    requires Valid(img) && |junk| == FileSize(img.w, img.h) && k < |junk|
  {
    if k < HeaderSize then
      MulNonNeg(OutPitch(img.w), img.h);
      HeaderByte(FileSize(img.w, img.h), img.w, img.h, OutPitch(img.w) * img.h, junk[6..10], k)
    else PixelByte(img, junk, k)
  }

  /** Byte k past the header: the sample that lands there, or the initial
      content for padding. */
  function PixelByte(img: Image, junk: seq<Byte>, k: nat): Byte
    requires Valid(img) && |junk| == FileSize(img.w, img.h) && HeaderSize <= k < |junk|
  {
    var op := OutPitch(img.w);
    if op == 0 then junk[k]
    else
      DivModNat(k - HeaderSize, op);
      var y, j := (k - HeaderSize) / op, (k - HeaderSize) % op;
      if y < img.h && j < 3 * img.w then
        SrcInRange(img, y, j / 3, j % 3);
        img.color[Src(img, y, j / 3, j % 3)]
      else junk[k]
  }

  function BmpFile(img: Image, junk: seq<Byte>): (r: seq<Byte>)
    requires Valid(img) && |junk| == FileSize(img.w, img.h)
    ensures |r| == |junk|
  {
    seq(|junk|, k requires 0 <= k < |junk| => FileByte(img, junk, k))
  }

  // ---------------------------------------------------------------------
  // Index arithmetic

  /** Every sample the pixel loop reads lies in the input. */
  lemma SrcInRange(img: Image, y: nat, x: nat, c: nat)
    requires Valid(img) && y < img.h && x < img.w && c < 3
    ensures 0 <= Src(img, y, x, c) < img.pitch * img.h
  {
    var r := img.h - 1 - y;
    MulLe(x, img.w - 1, img.stride);
    RowEnd(r, img.h, img.pitch);
    MulNonNeg(r, img.pitch);
    MulNonNeg(x, img.stride);
  }

  /** Every sample the pixel loop writes lies in row y of the pixel array,
      and the position decodes back to (y, x, c). */
  lemma DstDecode(img: Image, y: nat, x: nat, c: nat)
    requires Valid(img) && y < img.h && x < img.w && c < 3
    ensures HeaderSize <= Dst(img, y, x, c) < HeaderSize + (y + 1) * OutPitch(img.w)
    ensures HeaderSize + (y + 1) * OutPitch(img.w) <= FileSize(img.w, img.h)
    ensures (Dst(img, y, x, c) - HeaderSize) / OutPitch(img.w) == y
    ensures (Dst(img, y, x, c) - HeaderSize) % OutPitch(img.w) == 3 * x + c
    ensures (3 * x + c) / 3 == x && (3 * x + c) % 3 == c
  {
    var op := OutPitch(img.w);
    OutPitchBounds(img.w);
    RowEnd(y, img.h, op);
    assert (y + 1) * op == y * op + op;
    MulNonNeg(y, op);
    DivModUnique(y * op + 3 * x + c, op, y, 3 * x + c);
    DivModUnique(3 * x + c, 3, x, c);
  }

  /** A padding byte of stored row y, or a byte past the last row. */
  lemma PaddingDecode(img: Image, y: nat, j: nat)
    requires Valid(img) && y < img.h && 3 * img.w <= j < OutPitch(img.w)
    ensures HeaderSize + y * OutPitch(img.w) + j < FileSize(img.w, img.h)
    ensures (y * OutPitch(img.w) + j) / OutPitch(img.w) == y
    ensures (y * OutPitch(img.w) + j) % OutPitch(img.w) == j
  {
    var op := OutPitch(img.w);
    RowEnd(y, img.h, op);
    MulNonNeg(y, op);
    DivModUnique(y * op + j, op, y, j);
  }

  /** A field stored at `off` decodes to the value stored there. */
  lemma DecodeStored32(s: seq<Byte>, off: nat, v: nat)
    requires v < U32Limit && off + 4 <= |s|
    requires forall k | off <= k < off + 4 :: s[k] == Le32(v)[k - off]
    ensures DecodeLe32(s, off) == v
  {
    Le32RoundTrip(v);
  }

  lemma DecodeStored16(s: seq<Byte>, off: nat, v: nat)
    requires v < 0x1_0000 && off + 2 <= |s|
    requires forall k | off <= k < off + 2 :: s[k] == Le16(v)[k - off]
    ensures DecodeLe16(s, off) == v
  {
    Le16RoundTrip(v);
  }

  /** A reader of the file finds the "BM" signature, the file size and the
      offset 54 of the pixel array in the 14-byte file header. */
  lemma BmpFileHeaderFields(img: Image, junk: seq<Byte>)
    requires Valid(img) && |junk| == FileSize(img.w, img.h)
    ensures HeaderSize <= |BmpFile(img, junk)|
    ensures BmpFile(img, junk)[0] == 66 && BmpFile(img, junk)[1] == 77
    ensures DecodeLe32(BmpFile(img, junk), 0x02) == |BmpFile(img, junk)|
    ensures DecodeLe32(BmpFile(img, junk), 0x0A) == HeaderSize
    ensures BmpFile(img, junk)[6..10] == junk[6..10]
  {
    var f := BmpFile(img, junk);
    BmpFileHeader(img, junk);
    DecodeStored32(f, 0x02, FileSize(img.w, img.h));
    DecodeStored32(f, 0x0A, HeaderSize);
  }

  /** In the 40-byte info header a reader finds the header's own size, the
      dimensions, and one plane of 24 bits per pixel. */
  lemma BmpInfoHeaderFields(img: Image, junk: seq<Byte>)
    requires Valid(img) && |junk| == FileSize(img.w, img.h)
    ensures HeaderSize <= |BmpFile(img, junk)|
    ensures DecodeLe32(BmpFile(img, junk), 0x0E) == 40
    ensures DecodeLe32(BmpFile(img, junk), 0x12) == img.w
    ensures DecodeLe32(BmpFile(img, junk), 0x16) == img.h
    ensures DecodeLe16(BmpFile(img, junk), 0x1A) == 1
    ensures DecodeLe16(BmpFile(img, junk), 0x1C) == 24
  {
    var f := BmpFile(img, junk);
    BmpFileHeader(img, junk);
    DecodeStored32(f, 0x0E, 40);
    DecodeStored32(f, 0x12, img.w);
    DecodeStored32(f, 0x16, img.h);
    DecodeStored16(f, 0x1A, 1);
    DecodeStored16(f, 0x1C, 24);
  }

  /** The rest of the info header: no compression, the size of the pixel
      array, 2835 pixels per metre in both directions and no palette. */
  lemma BmpInfoHeaderSizes(img: Image, junk: seq<Byte>)
    requires Valid(img) && |junk| == FileSize(img.w, img.h)
    ensures HeaderSize <= |BmpFile(img, junk)|
    ensures DecodeLe32(BmpFile(img, junk), 0x1E) == 0
    ensures DecodeLe32(BmpFile(img, junk), 0x22) == |BmpFile(img, junk)| - HeaderSize
    ensures DecodeLe32(BmpFile(img, junk), 0x26) == 2835
    ensures DecodeLe32(BmpFile(img, junk), 0x2A) == 2835
    ensures DecodeLe32(BmpFile(img, junk), 0x2E) == 0
    ensures DecodeLe32(BmpFile(img, junk), 0x32) == 0
  {
    var f := BmpFile(img, junk);
    BmpFileHeader(img, junk);
    DecodeStored32(f, 0x1E, 0);
    DecodeStored32(f, 0x22, OutPitch(img.w) * img.h);
    DecodeStored32(f, 0x26, 2835);
    DecodeStored32(f, 0x2A, 2835);
    DecodeStored32(f, 0x2E, 0);
    DecodeStored32(f, 0x32, 0);
  }

  /** What a reader of the file sees as channel c of pixel x in image row r
      (rows counted from the top): the last stored row is the first image
      row. */
  function ReadSample(file: seq<Byte>, w: nat, h: nat, r: nat, x: nat, c: nat): Byte
    requires r < h && x < w && c < 3
    requires HeaderSize + OutPitch(w) * h <= |file|
  {
    OutPitchBounds(w);
    RowEnd(h - 1 - r, h, OutPitch(w));
    MulNonNeg(h - 1 - r, OutPitch(w));
    file[RowPos(OutPitch(w), h - 1 - r, 3 * x + c)]
  }

  /** Reading the file back gives every sample of the input image. */
  lemma ReadBack(img: Image, junk: seq<Byte>, r: nat, x: nat, c: nat)
    requires Valid(img) && |junk| == FileSize(img.w, img.h)
    requires r < img.h && x < img.w && c < 3
    ensures 0 <= r * img.pitch + x * img.stride + c < |img.color|
    ensures ReadSample(BmpFile(img, junk), img.w, img.h, r, x, c) == img.color[r * img.pitch + x * img.stride + c]
  {
    BmpFilePixelAt(img, junk, img.h - 1 - r, x, c);
  }

  // ---------------------------------------------------------------------
  // write_bmp

  /** `memcpy` of a 32-bit little-endian value into the buffer. */
  method PutLe32(data: array<Byte>, off: nat, v: nat)
    requires off + 4 <= data.Length && v < U32Limit
    modifies data
    ensures forall k | 0 <= k < data.Length ::
      data[k] == if off <= k < off + 4 then Le32(v)[k - off] else old(data[k])
  {
    var b := Le32(v);
    data[off], data[off + 1], data[off + 2], data[off + 3] := b[0], b[1], b[2], b[3];
  }

  method PutLe16(data: array<Byte>, off: nat, v: nat)
    requires off + 2 <= data.Length && v < 0x1_0000
    modifies data
    ensures forall k | 0 <= k < data.Length ::
      data[k] == if off <= k < off + 2 then Le16(v)[k - off] else old(data[k])
  {
    var b := Le16(v);
    data[off], data[off + 1] := b[0], b[1];
  }

  /** `write_bmp`: the returned bytes are what is written to the file. The
      buffer starts with the content `junk`. */
  method WriteBmp(img: Image, junk: seq<Byte>) returns (file: seq<Byte>)
    requires Valid(img) && |junk| == FileSize(img.w, img.h)
    ensures file == BmpFile(img, junk)
  {
    var w, h := img.w, img.h;
    var outPitch := OutPitch(w);
    MulNonNeg(outPitch, h);
    var fileSize := 54 + outPitch * h;
    BmpFileHeader(img, junk);
    var data := new Byte[fileSize](k requires 0 <= k < fileSize => junk[k]);
    assert data[..] == junk;
    WriteHeader(data, fileSize, w, h, outPitch * h);
    CopyPixels(data, img, outPitch, junk);
    file := data[..];
  }

  /** The header stores of `write_bmp`, in the source's order. Bytes 6..9
      and everything from byte 54 on are left as they were. */
  method WriteHeader(data: array<Byte>, fileSize: nat, w: nat, h: nat, imageSize: nat)
    requires fileSize < U32Limit && w < U32Limit && h < U32Limit && imageSize < U32Limit
    requires HeaderSize <= data.Length
    modifies data
    ensures forall k | 0 <= k < data.Length ::
      data[k] == if k < HeaderSize then HeaderByte(fileSize, w, h, imageSize, old(data[6..10]), k)
                 else old(data[k])
  {
    ghost var reserved := data[6..10];
    WriteFileHeader(data, fileSize, w, h, imageSize, reserved);
    WriteInfoDims(data, fileSize, w, h, imageSize, reserved);
    WriteInfoSizes(data, fileSize, w, h, imageSize, reserved);
  }

  /** The 14-byte file header: signature, file size and pixel offset. The
      reserved bytes 6..9 are not written. */
  method WriteFileHeader(data: array<Byte>, fileSize: nat, w: nat, h: nat, imageSize: nat, ghost reserved: seq<Byte>)
    requires fileSize < U32Limit && w < U32Limit && h < U32Limit && imageSize < U32Limit
    requires HeaderSize <= data.Length && reserved == data[6..10]
    modifies data
    ensures forall k | 0 <= k < data.Length ::
      data[k] == if k < 0x0E then HeaderByte(fileSize, w, h, imageSize, reserved, k) else old(data[k])
  {
    data[0], data[1] := 66, 77;                       // "BM"
    PutLe32(data, 0x02, fileSize);
    PutLe32(data, 0x0A, 54);                          // offset of the pixels
  }

  /** Info header, first part: its size, the dimensions, planes and depth. */
  method WriteInfoDims(data: array<Byte>, fileSize: nat, w: nat, h: nat, imageSize: nat, ghost reserved: seq<Byte>)
    requires fileSize < U32Limit && w < U32Limit && h < U32Limit && imageSize < U32Limit
    requires HeaderSize <= data.Length && |reserved| == 4
    modifies data
    ensures forall k | 0 <= k < data.Length ::
      data[k] == if 0x0E <= k < 0x1E then HeaderByte(fileSize, w, h, imageSize, reserved, k) else old(data[k])
  {
    PutLe32(data, 0x0E, 40);                          // size of the info header
    PutLe32(data, 0x12, w);
    PutLe32(data, 0x16, h);
    PutLe16(data, 0x1A, 1);                           // planes
    PutLe16(data, 0x1C, 24);                          // bits per pixel
  }

  /** Info header, second part: compression, pixel array size, resolution
      and palette counts. */
  method WriteInfoSizes(data: array<Byte>, fileSize: nat, w: nat, h: nat, imageSize: nat, ghost reserved: seq<Byte>)
    requires fileSize < U32Limit && w < U32Limit && h < U32Limit && imageSize < U32Limit
    requires HeaderSize <= data.Length && |reserved| == 4
    modifies data
    ensures forall k | 0 <= k < data.Length ::
      data[k] == if 0x1E <= k < HeaderSize then HeaderByte(fileSize, w, h, imageSize, reserved, k) else old(data[k])
  {
    PutLe32(data, 0x1E, 0);                           // no compression
    PutLe32(data, 0x22, imageSize);                   // size of the pixel array
    PutLe32(data, 0x26, 2835);                        // horizontal resolution
    PutLe32(data, 0x2A, 2835);                        // vertical resolution
    PutLe32(data, 0x2E, 0);                           // palette colours
    PutLe32(data, 0x32, 0);                           // important colours
  }

  /** The triple pixel loop: stored row y, pixel x, channel c receives the
      input sample of image row h-1-y. Writes happen in increasing address
      order, so after each write exactly the positions below it hold their
      final value and the others still hold the initial content. */
  method CopyPixels(data: array<Byte>, img: Image, op: nat, junk: seq<Byte>)
    requires Valid(img) && |junk| == FileSize(img.w, img.h)
    requires op == OutPitch(img.w) && data.Length == |junk|
    requires forall k | 0 <= k < data.Length ::
      data[k] == if k < HeaderSize then BmpFile(img, junk)[k] else junk[k]
    modifies data
    ensures data[..] == BmpFile(img, junk)
  {
    var w, h := img.w, img.h;
    ghost var target := BmpFile(img, junk);
    OutPitchBounds(w);
    var y := 0;
    ghost var base := HeaderSize;
    assert FilledTo(data[..], target, junk, base);
    while y < h
      invariant 0 <= y <= h && base == RowPos(op, y, 0)
      invariant FilledTo(data[..], target, junk, base)
    {
      CopyRow(data, img, op, junk, y);
      RowPadded(img, junk, data[..], y);
      base := RowPos(op, y + 1, 0);
      y := y + 1;
    }
    FilledAll(data[..], target, junk, base);
  }

  /** s agrees with target below position n and with junk from n on: the
      state of the output buffer while the pixel loop runs. */
  ghost predicate FilledTo(s: seq<Byte>, target: seq<Byte>, junk: seq<Byte>, n: int)
  {
    |s| == |target| == |junk| &&
    forall k | 0 <= k < |s| :: s[k] == if k < n then target[k] else junk[k]
  }

  /** Once every row is written the buffer is the whole file. */
  lemma FilledAll(s: seq<Byte>, target: seq<Byte>, junk: seq<Byte>, n: int)
    requires FilledTo(s, target, junk, n) && |s| <= n
    ensures s == target
  {
  }

  /** The padding of a row holds the initial content, so a row whose pixel
      bytes are written is complete. */
  lemma RowPadded(img: Image, junk: seq<Byte>, s: seq<Byte>, y: nat)
    requires Valid(img) && |junk| == FileSize(img.w, img.h) && y < img.h
    requires FilledTo(s, BmpFile(img, junk), junk, RowPos(OutPitch(img.w), y, 3 * img.w))
    ensures FilledTo(s, BmpFile(img, junk), junk, RowPos(OutPitch(img.w), y + 1, 0))
    ensures RowPos(OutPitch(img.w), y + 1, 0) <= |junk|
  {
    var op := OutPitch(img.w);
    var target := BmpFile(img, junk);
    var base := RowPos(op, y, 0);
    var mid := RowPos(op, y, 3 * img.w);
    var next := RowPos(op, y + 1, 0);
    OutPitchBounds(img.w);
    RowEnd(y, img.h, op);
    assert mid == base + 3 * img.w;
    assert next == base + op;
    forall k | 0 <= k < |s|
      ensures s[k] == if k < next then target[k] else junk[k]
    {
      if mid <= k < next {
        assert RowPos(op, y, k - base) == k;
        BmpFilePaddingAt(img, junk, y, k - base);
      }
    }
  }

  /** One stored row of the pixel loop: pixels x = 0 .. w-1, channels
      c = 0 .. 2, each receiving its input sample. */
  method CopyRow(data: array<Byte>, img: Image, op: nat, junk: seq<Byte>, y: nat)
    requires Valid(img) && |junk| == FileSize(img.w, img.h)
    requires op == OutPitch(img.w) && data.Length == |junk| && y < img.h
    requires FilledTo(data[..], BmpFile(img, junk), junk, RowPos(op, y, 0))
    modifies data
    ensures FilledTo(data[..], BmpFile(img, junk), junk, RowPos(op, y, 3 * img.w))
  {
    var w, h := img.w, img.h;
    ghost var target := BmpFile(img, junk);
    ghost var base := RowPos(op, y, 0);
    var x := 0;
    while x < w
      invariant 0 <= x <= w
      invariant FilledTo(data[..], target, junk, base + 3 * x)
    {
      var c := 0;
      while c < 3
        invariant 0 <= c <= 3
        invariant FilledTo(data[..], target, junk, base + 3 * x + c)
      {
        BmpFilePixelAt(img, junk, y, x, c);
        assert Dst(img, y, x, c) == base + 3 * x + c;
        ghost var before := data[..];
        data[54 + y * op + x * 3 + c] := img.color[(h - 1 - y) * img.pitch + x * img.stride + c];
        FilledStep(before, target, junk, base + 3 * x + c, data[..]);
        c := c + 1;
      }
      x := x + 1;
    }
  }

  /** Writing the final byte at the boundary moves the boundary by one. */
  lemma FilledStep(s: seq<Byte>, target: seq<Byte>, junk: seq<Byte>, n: int, s': seq<Byte>)
    requires FilledTo(s, target, junk, n) && 0 <= n < |s|
    requires s' == s[n := target[n]]
    ensures FilledTo(s', target, junk, n + 1)
  {
  }

  /** The first 54 bytes of the file are the header. */
  lemma BmpFileHeader(img: Image, junk: seq<Byte>)
    requires Valid(img) && |junk| == FileSize(img.w, img.h)
    ensures HeaderSize <= |junk| && OutPitch(img.w) * img.h < U32Limit
    ensures forall k | 0 <= k < HeaderSize ::
      BmpFile(img, junk)[k] == HeaderByte(FileSize(img.w, img.h), img.w, img.h, OutPitch(img.w) * img.h, junk[6..10], k)
  {
    MulNonNeg(OutPitch(img.w), img.h);
    forall k | 0 <= k < HeaderSize
      ensures BmpFile(img, junk)[k] == HeaderByte(FileSize(img.w, img.h), img.w, img.h, OutPitch(img.w) * img.h, junk[6..10], k)
    {
      assert BmpFile(img, junk)[k] == FileByte(img, junk, k);
    }
  }

  /** The sample of pixel x in stored row y is channel c of pixel x in
      image row h-1-y. */
  lemma BmpFilePixelAt(img: Image, junk: seq<Byte>, y: nat, x: nat, c: nat)
    requires Valid(img) && |junk| == FileSize(img.w, img.h)
    requires y < img.h && x < img.w && c < 3
    ensures 0 <= Src(img, y, x, c) < |img.color| && Dst(img, y, x, c) < |junk|
    ensures BmpFile(img, junk)[Dst(img, y, x, c)] == img.color[Src(img, y, x, c)]
  {
    DstDecode(img, y, x, c);
    SrcInRange(img, y, x, c);
    assert BmpFile(img, junk)[Dst(img, y, x, c)] == FileByte(img, junk, Dst(img, y, x, c));
  }

  /** The bytes between 3w and the padded row length keep the buffer's
      initial content. */
  lemma BmpFilePaddingAt(img: Image, junk: seq<Byte>, y: nat, j: nat)
    requires Valid(img) && |junk| == FileSize(img.w, img.h)
    requires y < img.h && 3 * img.w <= j < OutPitch(img.w)
    ensures RowPos(OutPitch(img.w), y, j) < |junk|
    ensures BmpFile(img, junk)[RowPos(OutPitch(img.w), y, j)] == junk[RowPos(OutPitch(img.w), y, j)]
  {
    PaddingDecode(img, y, j);
    var op := OutPitch(img.w);
    var k := RowPos(op, y, j);
    MulNonNeg(y, op);
    assert HeaderSize <= k && op != 0;
    assert (k - HeaderSize) / op == y && (k - HeaderSize) % op == j;
    assert FileByte(img, junk, k) == junk[k];
    assert BmpFile(img, junk)[k] == FileByte(img, junk, k);
  }
}
