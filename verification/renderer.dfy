/** The driver of main.cc: renders every pixel of a frame with a shading
    oracle, names the frame with its zero-padded index and hands the image
    to the BMP writer with a four-byte stride.

    Path tracing and tone mapping are floating-point work outside this
    model: the colour of pixel (x, y) in frame f is the oracle
    `shade(f, x, y)`, which stands for the tone-mapped average of the
    path-traced samples over the scene as set up for frame f. */
module Renderer {
  import opened Config
  import opened Arith
  import Decimal
  import Validator
  import Bmp

  /** `uchar4`: four bytes, stored in this order. */
  datatype Uchar4 = Uchar4(x: Bmp.Byte, y: Bmp.Byte, z: Bmp.Byte, w: Bmp.Byte)

  const PixelCount: nat := ImageWidth * ImageHeight

  /** Frames rendered by this build: the animation's own frame count is
      commented out in favour of a single frame. */
  const FrameCountInThisBuild: nat := 1

  // ---------------------------------------------------------------------
  // Frame names

  /** `std::to_string(frame_index)` followed by the loop that inserts '0'
      in front until the string has at least four characters. */
  method IndexString(frameIndex: nat) returns (s: string)
    ensures s == Decimal.FrameName(frameIndex)
    ensures 4 <= |s| && forall k | 0 <= k < |s| :: Decimal.IsDigit(s[k])
    ensures Decimal.ParseDecimal(s) == frameIndex
  {
    s := Decimal.DecimalString(frameIndex);
    Decimal.DecimalStringDigits(frameIndex);
    Decimal.ParseDecimalString(frameIndex);
    Decimal.ZFillShape(s, 4);
    Decimal.ParseZeros(|Decimal.ZFill(s, 4)| - |s|, s);
    while |s| < 4
      invariant Decimal.ZFill(s, 4) == Decimal.FrameName(frameIndex)
      decreases 4 - |s|
    {
      s := ['0'] + s;
    }
  }

  function OutputPath(indexStr: string): string
  {
    "output/frame_" + indexStr + ".bmp"
  }

  /** The renderer writes frame i exactly where the validator looks for
      the candidate image of frame i in the directory "output". */
  lemma OutputPathIsValidatorPath(i: nat)
    ensures OutputPath(Decimal.FrameName(i)) == Validator.OwnPath("output", i)
  {
    assert "output/frame_" == "output" + "/frame_";
  }

  // ---------------------------------------------------------------------
  // baseline_render

  /** The pixel loop index i visits pixel (i mod W, i div W); every pixel
      of the W x H image is visited, by exactly one index. */
  lemma PixelDecomposition(i: nat)
    requires i < PixelCount
    ensures i % ImageWidth < ImageWidth && i / ImageWidth < ImageHeight
    ensures i == i / ImageWidth * ImageWidth + i % ImageWidth
  {
  }

  lemma PixelIndexDecodes(x: nat, y: nat)
    requires x < ImageWidth && y < ImageHeight
    ensures y * ImageWidth + x < PixelCount
    ensures (y * ImageWidth + x) % ImageWidth == x && (y * ImageWidth + x) / ImageWidth == y
  {
    DivModUnique(y * ImageWidth + x, ImageWidth, y, x);
  }

  /** The rendered frame f, in memory order: row after row. */
  function Frame(shade: (nat, nat, nat) -> Uchar4, f: nat): (pixels: seq<Uchar4>)
    ensures |pixels| == PixelCount
  {
    seq(PixelCount, i requires 0 <= i => shade(f, i % ImageWidth, i / ImageWidth))
  }

  /** `baseline_render` for frame `frame`: pixel i receives the colour of
      (i mod W, i div W), so pixel (x, y) sits at y*W + x. */
  method BaselineRender(shade: (nat, nat, nat) -> Uchar4, frame: nat, image: array<Uchar4>)
    requires image.Length == PixelCount
    modifies image
    ensures image[..] == Frame(shade, frame)
    ensures forall x: nat, y: nat | x < ImageWidth && y < ImageHeight ::
      y * ImageWidth + x < image.Length && image[y * ImageWidth + x] == shade(frame, x, y)
  {
    var i := 0;
    while i < PixelCount
      invariant 0 <= i <= PixelCount
      invariant forall j | 0 <= j < i :: image[j] == shade(frame, j % ImageWidth, j / ImageWidth)
    {
      var x := i % ImageWidth;
      var y := i / ImageWidth;
      image[i] := shade(frame, x, y);
      i := i + 1;
    }
    forall x: nat, y: nat | x < ImageWidth && y < ImageHeight
      ensures y * ImageWidth + x < image.Length && image[y * ImageWidth + x] == shade(frame, x, y)
    {
      PixelIndexDecodes(x, y);
    }
  }

  /** The image as the byte array `write_bmp` reads: four bytes per pixel. */
  function Bytes(pixels: seq<Uchar4>): (r: seq<Bmp.Byte>)
    ensures |r| == 4 * |pixels|
  {
    if |pixels| == 0 then []
    else Bytes(pixels[..|pixels| - 1]) + [pixels[|pixels| - 1].x, pixels[|pixels| - 1].y,
                                          pixels[|pixels| - 1].z, pixels[|pixels| - 1].w]
  }

  /** Byte 4i + c of the array is channel c of pixel i. */
  lemma {:induction false} BytesAt(pixels: seq<Uchar4>, i: nat)
    requires i < |pixels|
    ensures Bytes(pixels)[4 * i] == pixels[i].x && Bytes(pixels)[4 * i + 1] == pixels[i].y
    ensures Bytes(pixels)[4 * i + 2] == pixels[i].z && Bytes(pixels)[4 * i + 3] == pixels[i].w
  {
    if i < |pixels| - 1 {
      BytesAt(pixels[..|pixels| - 1], i);
    }
  }

  /** The arguments of the `write_bmp` call: width W, height H, stride 4,
      pitch 4W. */
  function FrameImage(pixels: seq<Uchar4>): Bmp.Image
  {
    Bmp.Image(ImageWidth, ImageHeight, 4, ImageWidth * 4, Bytes(pixels))
  }

  /** A full frame meets every demand of `write_bmp`; in particular the
      last pixel of a row ends inside the row: (W-1)*4 + 3 <= 4W. */
  lemma FrameImageValid(pixels: seq<Uchar4>)
    requires |pixels| == PixelCount
    ensures Bmp.Valid(FrameImage(pixels))
    ensures Bmp.FileSize(ImageWidth, ImageHeight) == 691254
  {
  }

  /** What `write_bmp` receives as channel c of pixel x in image row r:
      byte c of the colour of pixel (x, r). */
  lemma FrameSample(pixels: seq<Uchar4>, r: nat, x: nat, c: nat)
    requires |pixels| == PixelCount && r < ImageHeight && x < ImageWidth && c < 3
    ensures var img := FrameImage(pixels);
      0 <= r * img.pitch + x * img.stride + c < |img.color| &&
      img.color[r * img.pitch + x * img.stride + c] ==
        [pixels[r * ImageWidth + x].x, pixels[r * ImageWidth + x].y, pixels[r * ImageWidth + x].z][c]
  {
    PixelIndexDecodes(x, r);
    BytesAt(pixels, r * ImageWidth + x);
    assert r * (ImageWidth * 4) + x * 4 == 4 * (r * ImageWidth + x);
  }

  // ---------------------------------------------------------------------
  // The frame loop of main

  /** One written file: its path and its bytes. */
  datatype Output = Output(path: string, bytes: seq<Bmp.Byte>)

  /** The frame loop: frames 0 .. frameCount-1 in ascending order, each
      rendered into the same image buffer and written to its own file.
      The BMP writer allocates a fresh buffer on every call, so `junks[f]`
      is the initial content of the buffer that frame f is written into.
      Scene setup for the frame is folded into `shade`. */
  method RenderFrames(shade: (nat, nat, nat) -> Uchar4, frameCount: nat, junks: seq<seq<Bmp.Byte>>)
    returns (files: seq<Output>)
    requires |junks| == frameCount
    requires forall f | 0 <= f < frameCount :: |junks[f]| == Bmp.FileSize(ImageWidth, ImageHeight)
    ensures |files| == frameCount
    ensures forall f | 0 <= f < frameCount ::
      files[f].path == Validator.OwnPath("output", f) &&
      files[f].bytes == Bmp.BmpFile(FrameImage(Frame(shade, f)), junks[f])
  {
    var image := new Uchar4[PixelCount](_ => Uchar4(0, 0, 0, 0));
    files := [];
    var frameIndex := 0;
    while frameIndex < frameCount
      invariant 0 <= frameIndex <= frameCount && |files| == frameIndex
      invariant forall f | 0 <= f < frameIndex ::
        files[f].path == Validator.OwnPath("output", f) &&
        files[f].bytes == Bmp.BmpFile(FrameImage(Frame(shade, f)), junks[f])
    {
      BaselineRender(shade, frameIndex, image);
      var indexStr := IndexString(frameIndex);
      var path := "output/frame_" + indexStr + ".bmp";
      OutputPathIsValidatorPath(frameIndex);
      FrameImageValid(image[..]);
      var bytes := Bmp.WriteBmp(FrameImage(image[..]), junks[frameIndex]);
      files := files + [Output(path, bytes)];
      frameIndex := frameIndex + 1;
    }
  }

  /** `main` as built: the frame count is fixed at one, so a run writes a
      single file, "output/frame_0000.bmp", holding frame 0. */
  method RunThisBuild(shade: (nat, nat, nat) -> Uchar4, junk: seq<Bmp.Byte>)
    returns (files: seq<Output>)
    requires |junk| == Bmp.FileSize(ImageWidth, ImageHeight)
    ensures |files| == 1 && files[0].path == "output/frame_0000.bmp"
    ensures files[0].bytes == Bmp.BmpFile(FrameImage(Frame(shade, 0)), junk)
  {
    files := RenderFrames(shade, FrameCountInThisBuild, [junk]);
    assert Decimal.DecimalString(0) == "0";
    Decimal.ZFillShape("0", 4);
    assert Decimal.FrameName(0) == "0000";
  }

  /** Each written file shows the frame: reading channel c of pixel x in
      image row r back from file f gives byte c of `shade(f, x, r)`. */
  lemma RenderedFileShowsFrame(shade: (nat, nat, nat) -> Uchar4, f: nat, junk: seq<Bmp.Byte>,
                               r: nat, x: nat, c: nat)
    requires |junk| == Bmp.FileSize(ImageWidth, ImageHeight)
    requires r < ImageHeight && x < ImageWidth && c < 3
    ensures Bmp.ReadSample(Bmp.BmpFile(FrameImage(Frame(shade, f)), junk), ImageWidth, ImageHeight, r, x, c) ==
      [shade(f, x, r).x, shade(f, x, r).y, shade(f, x, r).z][c]
  {
    var pixels := Frame(shade, f);
    FrameImageValid(pixels);
    FrameSample(pixels, r, x, c);
    PixelIndexDecodes(x, r);
    Bmp.ReadBack(FrameImage(pixels), junk, r, x, c);
  }
}
