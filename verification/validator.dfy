/** The frame validator (validator.py): compares every rendered frame with a
    reference image by PSNR, reports each frame and writes the aggregate
    result to validation_result.txt.

    The file system is the set of paths that exist, the PSNR of each frame
    is an input, and the decimal rendering of PSNR values (`str`) is a
    parameter `fmt`. Console output is the text printed, each `print`
    contributing its argument followed by a newline. */
module Validator {
  import opened Wrappers
  import Decimal

  const FrameCount: nat := 1800
  const AcceptMinPsnr: real := 32.0
  const ResizeFactor: nat := 2

  /** A PSNR value: identical images give an infinite PSNR. */
  datatype Psnr = Finite(v: real) | Infinite

  function Add(a: Psnr, b: Psnr): Psnr
  {
    if a.Infinite? || b.Infinite? then Infinite else Finite(a.v + b.v)
  }

  predicate Less(a: Psnr, b: Psnr)
  {
    a.Finite? && (b.Infinite? || a.v < b.v)
  }

  /** Python's `min(a, b)`: `a` unless `b` is smaller. */
  function MinP(a: Psnr, b: Psnr): (r: Psnr)
    ensures r == a || r == b
    ensures !Less(a, r) && !Less(b, r)
  {
    if Less(b, a) then b else a
  }

  /** Python's `max(a, b)`: `a` unless `b` is larger. */
  function MaxP(a: Psnr, b: Psnr): (r: Psnr)
    ensures r == a || r == b
    ensures !Less(r, a) && !Less(r, b)
  {
    if Less(a, b) then b else a
  }

  /** The run's inputs: the two directories, the paths that exist, the PSNR
      each frame would get, and `str` on PSNR values. */
  datatype Env = Env(refDir: string, ownDir: string, fs: set<string>,
                     psnr: seq<Psnr>, fmt: Psnr -> string)

  function RefPath(refDir: string, i: nat): string
  {
    refDir + "/" + Decimal.FrameName(i) + ".png"
  }

  function OwnPath(ownDir: string, i: nat): string
  {
    ownDir + "/frame_" + Decimal.FrameName(i) + ".bmp"
  }

  predicate Present(e: Env, i: nat)
  {
    OwnPath(e.ownDir, i) in e.fs
  }

  function PsnrOf(e: Env, i: nat): Psnr
  {
    if i < |e.psnr| then e.psnr[i] else Finite(0.0)
  }

  /** Frame i passes: its image exists and its PSNR reaches the threshold. */
  predicate Good(e: Env, i: nat)
  {
    Present(e, i) && !Less(PsnrOf(e, i), Finite(AcceptMinPsnr))
  }

  /** The report line of frame i, without its newline. */
  function FrameLine(e: Env, i: nat): string
  {
    Decimal.FrameName(i) + ": " + FrameVerdict(e, i)
  }

  /** What follows "NNNN: " on frame i's line. */
  function FrameVerdict(e: Env, i: nat): string
  {
    if !Present(e, i) then "(missing image)"
    else e.fmt(PsnrOf(e, i)) + (if Less(PsnrOf(e, i), Finite(AcceptMinPsnr)) then " BAD, BROKEN IMAGE?" else " GOOD")
  }

  /** The report lines of frames 0..n-1, each followed by a newline. */
  function Report(e: Env, n: nat): string
  {
    if n == 0 then "" else Report(e, n - 1) + FrameLine(e, n - 1) + "\n"
  }

  predicate AllGood(e: Env, n: nat)
  {
    forall i: nat | i < n :: Good(e, i)
  }

  function SumUpTo(e: Env, n: nat): Psnr
  {
    if n == 0 then Finite(0.0)
    else if Present(e, n - 1) then Add(SumUpTo(e, n - 1), PsnrOf(e, n - 1))
    else SumUpTo(e, n - 1)
  }

  function MinUpTo(e: Env, n: nat): Psnr
  {
    if n == 0 then Finite(1000.0)
    else if Present(e, n - 1) then MinP(MinUpTo(e, n - 1), PsnrOf(e, n - 1))
    else MinUpTo(e, n - 1)
  }

  function MaxUpTo(e: Env, n: nat): Psnr
  {
    if n == 0 then Finite(0.0)
    else if Present(e, n - 1) then MaxP(MaxUpTo(e, n - 1), PsnrOf(e, n - 1))
    else MaxUpTo(e, n - 1)
  }

  /** The first frame whose reference image is missing, or FrameCount. */
  function FirstMissingRef(e: Env, from: nat): (k: nat)
    requires from <= FrameCount
    ensures from <= k <= FrameCount
    ensures forall j: nat | from <= j < k :: RefPath(e.refDir, j) in e.fs
    ensures k < FrameCount ==> RefPath(e.refDir, k) !in e.fs
    decreases FrameCount - from
  {
    if from == FrameCount then FrameCount
    else if RefPath(e.refDir, from) !in e.fs then from
    else FirstMissingRef(e, from + 1)
  }

  function Outcome(e: Env): string
  {
    (if AllGood(e, FrameCount) then "Validation result: successful.\n"
     else "Validation result: failure.\n") +
    "Sum PSNR: " + e.fmt(SumUpTo(e, FrameCount)) + "\n" +
    "Min PSNR: " + e.fmt(MinUpTo(e, FrameCount)) + "\n" +
    "Max PSNR: " + e.fmt(MaxUpTo(e, FrameCount)) + "\n"
  }

  function Usage(program: string): string
  {
    "Usage: " + program + " reference_directory own_directory\n"
  }

  function Abort(e: Env, k: nat): string
  {
    "Reference files are incomplete, quitting!!!\n" + RefPath(e.refDir, k) + " is missing.\n"
  }

  /** `main`: `args` is sys.argv, `fs` the existing paths, `psnr` the PSNR of
      each frame and `fmt` the `str` of a PSNR value. Returns the console
      text and the content written to validation_result.txt, if any. */
  method Validate(args: seq<string>, fs: set<string>, psnr: seq<Psnr>, fmt: Psnr -> string)
    returns (console: string, file: Option<string>)
    requires |args| >= 1
    ensures |args| != 3 ==> console == Usage(args[0]) && file == None
    ensures |args| == 3 ==>
      var e := Env(args[1], args[2], fs, psnr, fmt);
      var k := FirstMissingRef(e, 0);
      if k < FrameCount then
        console == Report(e, k) + Abort(e, k) && file == None
      else
        console == Report(e, FrameCount) + Outcome(e) + "\n" &&
        file == Some(Report(e, FrameCount) + Outcome(e))
  {
    if |args| != 3 {
      console := Usage(args[0]);
      file := None;
      return;
    }
    var e := Env(args[1], args[2], fs, psnr, fmt);
    var k, validation, success, sum, mn, mx := ScanFrames(e);
    // every report line has been printed as it was produced
    if k < FrameCount {
      var abort := "Reference files are incomplete, quitting!!!\n" + RefPath(e.refDir, k) + " is missing.\n";
      console := validation + abort;
      file := None;
      return;
    }
    var outcome: string := if success then "Validation result: successful.\n" else "Validation result: failure.\n";
    outcome := outcome + "Sum PSNR: " + fmt(sum) + "\n";
    outcome := outcome + "Min PSNR: " + fmt(mn) + "\n";
    outcome := outcome + "Max PSNR: " + fmt(mx) + "\n";
    assert outcome == Outcome(e);
    console := validation + outcome + "\n";
    file := Some(validation + outcome);
  }

  /** The frame loop: processes frames in index order until one lacks its
      reference image (k is that frame) or all are done (k = FrameCount),
      accumulating the report text, the success flag and the sum, minimum
      and maximum PSNR from their initial values true, 0, 1000 and 0. */
  method ScanFrames(e: Env) returns (k: nat, validation: string, success: bool, sum: Psnr, mn: Psnr, mx: Psnr)
    ensures k == FirstMissingRef(e, 0)
    ensures validation == Report(e, k)
    ensures success <==> AllGood(e, k)
    ensures sum == SumUpTo(e, k) && mn == MinUpTo(e, k) && mx == MaxUpTo(e, k)
  {
    validation := "";
    success := true;
    sum, mn, mx := Finite(0.0), Finite(1000.0), Finite(0.0);
    k := 0;
    while k < FrameCount
      invariant 0 <= k <= FrameCount
      invariant FirstMissingRef(e, k) == FirstMissingRef(e, 0)
      invariant validation == Report(e, k)
      invariant success <==> AllGood(e, k)
      invariant sum == SumUpTo(e, k) && mn == MinUpTo(e, k) && mx == MaxUpTo(e, k)
    {
      var refPath := RefPath(e.refDir, k);
      if refPath !in e.fs {
        return;
      }
      var report, present, good := FrameReport(e, k);
      if present {
        var p := PsnrOf(e, k);
        sum := Add(sum, p);
        mn := MinP(mn, p);
        mx := MaxP(mx, p);
      }
      if !good {
        success := false;
      }
      FrameStep(e, k);
      validation := validation + report + "\n";
      k := k + 1;
    }
  }

  /** The body of the frame loop once the reference image is known to
      exist: builds the report line of frame i and says whether the frame's
      image exists and whether it passes. */
  method FrameReport(e: Env, i: nat) returns (report: string, present: bool, good: bool)
    ensures report == FrameLine(e, i)
    ensures present <==> Present(e, i)
    ensures good <==> Good(e, i)
  {
    var name := Decimal.FrameName(i);
    var ownPath := e.ownDir + "/frame_" + name + ".bmp";
    report := name + ": ";
    present := ownPath in e.fs;
    if !present {
      report := report + "(missing image)";
      good := false;
    } else {
      var p := PsnrOf(e, i);
      report := report + e.fmt(p);
      if Less(p, Finite(AcceptMinPsnr)) {
        good := false;
        report := report + " BAD, BROKEN IMAGE?";
      } else {
        good := true;
        report := report + " GOOD";
      }
    }
  }

  /** How one more frame extends the report and the aggregates. */
  lemma FrameStep(e: Env, i: nat)
    ensures Report(e, i + 1) == Report(e, i) + FrameLine(e, i) + "\n"
    ensures AllGood(e, i + 1) <==> AllGood(e, i) && Good(e, i)
    ensures SumUpTo(e, i + 1) == if Present(e, i) then Add(SumUpTo(e, i), PsnrOf(e, i)) else SumUpTo(e, i)
    ensures MinUpTo(e, i + 1) == if Present(e, i) then MinP(MinUpTo(e, i), PsnrOf(e, i)) else MinUpTo(e, i)
    ensures MaxUpTo(e, i + 1) == if Present(e, i) then MaxP(MaxUpTo(e, i), PsnrOf(e, i)) else MaxUpTo(e, i)
  {
  }

  // ---------------------------------------------------------------------
  // Properties of the report and the aggregates

  predicate EndsWith(s: string, suffix: string)
  {
    |suffix| <= |s| && s[|s| - |suffix|..] == suffix
  }

  /** A frame's line ends in " GOOD" exactly when its image exists and its
      PSNR is at least 32 (32 itself passes). */
  lemma GoodLine(e: Env, i: nat)
    ensures EndsWith(FrameLine(e, i), " GOOD") <==> Good(e, i)
    ensures Present(e, i) && Less(PsnrOf(e, i), Finite(AcceptMinPsnr)) ==>
      EndsWith(FrameLine(e, i), " BAD, BROKEN IMAGE?")
    ensures !Present(e, i) ==> FrameLine(e, i) == Decimal.FrameName(i) + ": (missing image)"
  {
    var line := FrameLine(e, i);
    var head := Decimal.FrameName(i) + ": ";
    if Good(e, i) {
      assert line == (head + e.fmt(PsnrOf(e, i))) + " GOOD";
    } else if Present(e, i) {
      assert line == (head + e.fmt(PsnrOf(e, i))) + " BAD, BROKEN IMAGE?";
      assert line[|line| - 1] == '?';
    } else {
      assert line == head + "(missing image)";
      assert line[|line| - 1] == ')';
    }
  }

  /** Once a frame fails, success stays false for every longer prefix. */
  lemma {:induction false} SuccessOnlyFalls(e: Env, m: nat, n: nat)
    requires m <= n && !AllGood(e, m)
    ensures !AllGood(e, n)
  {
    var j: nat :| j < m && !Good(e, j);
    assert j < n;
  }

  /** The report of fewer frames is a prefix of the report of more. */
  lemma {:induction false} ReportPrefix(e: Env, m: nat, n: nat)
    requires m <= n
    ensures Report(e, m) <= Report(e, n)
    decreases n - m
  {
    if m < n {
      ReportPrefix(e, m, n - 1);
      assert Report(e, n - 1) <= Report(e, n);
    }
  }

  /** The minimum never exceeds the sentinel 1000 nor any present frame's PSNR,
      and it is either the sentinel or one of those values. */
  lemma {:induction false} MinBounds(e: Env, n: nat)
    ensures !Less(Finite(1000.0), MinUpTo(e, n))
    ensures forall i: nat | i < n && Present(e, i) :: !Less(PsnrOf(e, i), MinUpTo(e, n))
    ensures MinUpTo(e, n) == Finite(1000.0) ||
            exists i: nat | i < n && Present(e, i) :: MinUpTo(e, n) == PsnrOf(e, i)
  {
    if n > 0 {
      MinBounds(e, n - 1);
      if Present(e, n - 1) {
        var m := MinUpTo(e, n - 1);
        var p := PsnrOf(e, n - 1);
        forall i: nat | i < n && Present(e, i) ensures !Less(PsnrOf(e, i), MinUpTo(e, n)) {
          if i < n - 1 {
            LessTrans(PsnrOf(e, i), MinP(m, p), m);
          }
        }
        LessTrans(Finite(1000.0), MinP(m, p), m);
      }
    }
  }

  /** The maximum is never below the sentinel 0 nor below any present
      frame's PSNR, and it is either the sentinel or one of those values. */
  lemma {:induction false} MaxBounds(e: Env, n: nat)
    ensures !Less(MaxUpTo(e, n), Finite(0.0))
    ensures forall i: nat | i < n && Present(e, i) :: !Less(MaxUpTo(e, n), PsnrOf(e, i))
    ensures MaxUpTo(e, n) == Finite(0.0) ||
            exists i: nat | i < n && Present(e, i) :: MaxUpTo(e, n) == PsnrOf(e, i)
  {
    if n > 0 {
      MaxBounds(e, n - 1);
      if Present(e, n - 1) {
        var m := MaxUpTo(e, n - 1);
        var p := PsnrOf(e, n - 1);
        forall i: nat | i < n && Present(e, i) ensures !Less(MaxUpTo(e, n), PsnrOf(e, i)) {
          if i < n - 1 {
            LessTrans(m, MaxP(m, p), PsnrOf(e, i));
          }
        }
        LessTrans(m, MaxP(m, p), Finite(0.0));
      }
    }
  }

  /** `!Less(a, b)` (a >= b) is transitive in the needed form. */
  lemma LessTrans(a: Psnr, b: Psnr, c: Psnr)
    ensures !Less(a, b) && !Less(b, c) ==> !Less(a, c)
    ensures !Less(b, a) && !Less(c, b) ==> !Less(c, a)
  {
  }

  /** The sum is infinite exactly when some present frame has an infinite
      PSNR; otherwise it is the real sum of the present frames' PSNR. */
  lemma {:induction false} SumInfinite(e: Env, n: nat)
    ensures SumUpTo(e, n).Infinite? <==> exists i: nat | i < n && Present(e, i) :: PsnrOf(e, i).Infinite?
  {
    if n > 0 {
      SumInfinite(e, n - 1);
      if Present(e, n - 1) && PsnrOf(e, n - 1).Infinite? {
        assert SumUpTo(e, n).Infinite?;
      }
    }
  }

  // ---------------------------------------------------------------------
  // Downscaling of the rendered frame before comparison

  /** An image of h rows, w columns and c channels of 8-bit values. */
  predicate IsImage(img: seq<seq<seq<int>>>, h: nat, w: nat, c: nat)
  {
    |img| == h &&
    forall y | 0 <= y < h :: |img[y]| == w &&
      forall x | 0 <= x < w :: |img[y][x]| == c &&
        forall ch | 0 <= ch < c :: 0 <= img[y][x][ch] < 256
  }

  /** A sample, or the padding value 0 outside the image. */
  function Sample(img: seq<seq<seq<int>>>, y: nat, x: nat, ch: nat): int
  {
    if y < |img| && x < |img[y]| && ch < |img[y][x]| then img[y][x][ch] else 0
  }

  /** Sum of the 2x2 block whose top-left sample is (2y, 2x). */
  function BlockSum(img: seq<seq<seq<int>>>, y: nat, x: nat, ch: nat): int
  {
    Sample(img, 2 * y, 2 * x, ch) + Sample(img, 2 * y, 2 * x + 1, ch) +
    Sample(img, 2 * y + 1, 2 * x, ch) + Sample(img, 2 * y + 1, 2 * x + 1, ch)
  }

  /** `downscale_local_mean(img, (2, 2, 1))` followed by `astype(uint8)`:
      the image is padded with zeros to even dimensions, each 2x2 block is
      averaged, and the mean is truncated to an integer. */
  function Downscale(img: seq<seq<seq<int>>>, h: nat, w: nat, c: nat): (r: seq<seq<seq<int>>>)
    requires IsImage(img, h, w, c)
    ensures IsImage(r, (h + 1) / 2, (w + 1) / 2, c)
    ensures forall y, x, ch | 0 <= y < (h + 1) / 2 && 0 <= x < (w + 1) / 2 && 0 <= ch < c ::
      4 * r[y][x][ch] <= BlockSum(img, y, x, ch) < 4 * r[y][x][ch] + 4
  {
    seq((h + 1) / 2, y requires 0 <= y < (h + 1) / 2 =>
      seq((w + 1) / 2, x requires 0 <= x < (w + 1) / 2 =>
        seq(c, ch requires 0 <= ch < c => BlockSum(img, y, x, ch) / 4)))
  }

  /** A block whose four samples are equal keeps its value. */
  lemma DownscaleUniformBlock(img: seq<seq<seq<int>>>, h: nat, w: nat, c: nat, y: nat, x: nat, ch: nat)
    requires IsImage(img, h, w, c)
    requires 2 * y + 1 < h && 2 * x + 1 < w && ch < c
    requires img[2 * y][2 * x][ch] == img[2 * y][2 * x + 1][ch] == img[2 * y + 1][2 * x][ch] == img[2 * y + 1][2 * x + 1][ch]
    ensures Downscale(img, h, w, c)[y][x][ch] == img[2 * y][2 * x][ch]
  {
    var r := Downscale(img, h, w, c);
    assert 4 * r[y][x][ch] <= BlockSum(img, y, x, ch) < 4 * r[y][x][ch] + 4;
  }
}
