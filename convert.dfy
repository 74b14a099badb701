/**
 * The conversion step of a single sticker: which external command is run on
 * which arguments, the alpha probe of a WebM's first frame, the cropping of
 * transparent edges from a converted PNG, and the executable names.
 *
 * Images are 2-D arrays of 16-bit alpha values indexed `img[x, y]`, with
 * `img.Length0` the width and `img.Length1` the height; the PNG decoder always
 * places an image's bounds at the origin, so pixel (x, y) of the source is
 * `img[x, y]` here.
 */
module Convert {
  import opened Wrappers

  /** The alpha channel as `color.RGBA()` reports it. */
  newtype Alpha = a: int | 0 <= a <= 65535

  const FullyOpaque: Alpha := 65535

  /** The task the download worker hands to the converter. */
  datatype ConvertTask = ConvertTask(
    inputFilePath: string,
    inputExtension: string,   // webp, webm, mp4 or tgs
    outputFilePath: string,
    preserveJsonPath: string) // "" when the decompressed JSON is not kept

  const FpsFilter := "fps=fps='min(source_fps,40)'"
  const PaletteFilter := "split[s0][s1];[s0]palettegen=reserve_transparent=1[p];[s1][p]paletteuse"

  /** What `Run` goes on to do once the arguments are fixed. */
  datatype Command =
    | TgsDisabled
      // the task is refused before any file or process is touched
    | Lottie(jsonPath: string, gifPath: string, preserveJsonPath: string)
      // gunzip the input in place, rename it to jsonPath, run rlottie at 512x512,
      // then rename gifPath to the output file
    | Ffmpeg(args: seq<string>, trimAfter: bool)
      // run ffmpeg on args; trimAfter: crop transparent edges off the output afterwards

  predicate RejectsTgs(task: ConvertTask, supportTgs: bool) {
    task.inputExtension == "tgs" && !supportTgs
  }

  function VideoFilter(withPalette: bool): string {
    if withPalette then FpsFilter + "," + PaletteFilter else FpsFilter
  }

  /** Some pixel on the stride-4 sampling grid is not fully opaque. */
  ghost predicate SampledTranslucent(img: array2<Alpha>)
    reads img
  {
    exists x, y :: 0 <= x < img.Length0 && 0 <= y < img.Length1 && x % 4 == 0 && y % 4 == 0 &&
      img[x, y] < FullyOpaque
  }

  /**
   * `detectWebmAlpha`: `frame` is the first frame of the WebM as decoded from
   * the probe PNG, or None when extracting, opening or decoding it failed.
   */
  method DetectWebmAlpha(frame: Option<array2<Alpha>>) returns (hasAlpha: bool)
    ensures frame.None? ==> hasAlpha
    ensures frame.Some? ==> (hasAlpha <==> SampledTranslucent(frame.value))
  {
    if frame.None? {
      return true;
    }
    var img := frame.value;
    var y := 0;
    while y < img.Length1
      invariant 0 <= y && y % 4 == 0
      invariant forall sx, sy ::
        (0 <= sx < img.Length0 && 0 <= sy < img.Length1 && sy < y && sx % 4 == 0 && sy % 4 == 0) ==>
        img[sx, sy] == FullyOpaque
    {
      var x := 0;
      while x < img.Length0
        invariant 0 <= x && x % 4 == 0
        invariant forall sx, sy ::
          (0 <= sx < img.Length0 && 0 <= sy < img.Length1 && (sy < y || (sy == y && sx < x)) &&
           sx % 4 == 0 && sy % 4 == 0) ==> img[sx, sy] == FullyOpaque
      {
        if img[x, y] < FullyOpaque {
          return true;
        }
        x := x + 4;
      }
      y := y + 4;
    }
    return false;
  }

  /**
   * `ConvertTask.Run` up to the point where the external process starts.
   * `firstFrame` is what the WebM alpha probe would decode; it is consulted
   * for WebM input only.
   */
  method Run(task: ConvertTask, supportTgs: bool, firstFrame: Option<array2<Alpha>>) returns (cmd: Command)
    ensures cmd.TgsDisabled? <==> RejectsTgs(task, supportTgs)
    ensures task.inputExtension == "tgs" && supportTgs ==>
      cmd == Lottie(task.inputFilePath + ".json", task.inputFilePath + ".json.gif", task.preserveJsonPath)
    ensures task.inputExtension != "tgs" ==>
      cmd == Ffmpeg(
        ["-y"] + (if task.inputExtension == "webm" then ["-vcodec", "libvpx-vp9"] else []) +
        ["-i", task.inputFilePath,
         "-vf", VideoFilter(task.inputExtension == "webm" &&
                            (firstFrame.None? || SampledTranslucent(firstFrame.value))),
         task.outputFilePath],
        task.inputExtension == "webp")
  {
    if task.inputExtension == "tgs" {
      if !supportTgs {
        return TgsDisabled;
      }
      var jsonPath := task.inputFilePath + ".json";
      return Lottie(jsonPath, jsonPath + ".gif", task.preserveJsonPath);
    }
    var args := ["-y"];
    var vfilter: string;
    if task.inputExtension == "webm" {
      args := args + ["-vcodec", "libvpx-vp9"];
      var alpha := DetectWebmAlpha(firstFrame);
      if alpha {
        vfilter := FpsFilter + "," + PaletteFilter;
      } else {
        vfilter := FpsFilter;
      }
    } else {
      vfilter := FpsFilter;
    }
    args := args + ["-i", task.inputFilePath, "-vf", vfilter, task.outputFilePath];
    cmd := Ffmpeg(args, task.inputExtension == "webp");
  }

  // ---- Transparent-edge trimming of a converted PNG ----

  ghost predicate HasOpaque(img: array2<Alpha>)
    reads img
  {
    exists x, y :: 0 <= x < img.Length0 && 0 <= y < img.Length1 && img[x, y] > 0
  }

  /** Column x holds a pixel with alpha > 0. */
  ghost predicate OpaqueInColumn(img: array2<Alpha>, x: int)
    reads img
    requires 0 <= x < img.Length0
  {
    exists y :: 0 <= y < img.Length1 && img[x, y] > 0
  }

  /** Row y holds a pixel with alpha > 0. */
  ghost predicate OpaqueInRow(img: array2<Alpha>, y: int)
    reads img
    requires 0 <= y < img.Length1
  {
    exists x :: 0 <= x < img.Length0 && img[x, y] > 0
  }

  /** [minX..maxX] x [minY..maxY] holds every pixel with alpha > 0, and each of its four edges touches one. */
  ghost predicate TightBox(img: array2<Alpha>, minX: int, minY: int, maxX: int, maxY: int)
    reads img
  {
    && 0 <= minX <= maxX < img.Length0 && 0 <= minY <= maxY < img.Length1
    && (forall x, y :: 0 <= x < img.Length0 && 0 <= y < img.Length1 && img[x, y] > 0 ==>
          minX <= x <= maxX && minY <= y <= maxY)
    && OpaqueInColumn(img, minX) && OpaqueInColumn(img, maxX)
    && OpaqueInRow(img, minY) && OpaqueInRow(img, maxY)
  }

  /** A box is the smallest holding all non-transparent pixels: any box that holds them all contains it. */
  lemma TightBoxIsSmallest(img: array2<Alpha>, minX: int, minY: int, maxX: int, maxY: int,
                           x0: int, y0: int, x1: int, y1: int)
    requires TightBox(img, minX, minY, maxX, maxY)
    requires forall x, y :: 0 <= x < img.Length0 && 0 <= y < img.Length1 && img[x, y] > 0 ==>
      x0 <= x <= x1 && y0 <= y <= y1
    ensures x0 <= minX && maxX <= x1 && y0 <= minY && maxY <= y1
  {
    assert OpaqueInColumn(img, minX) && OpaqueInColumn(img, maxX);
    assert OpaqueInRow(img, minY) && OpaqueInRow(img, maxY);
    var ya :| 0 <= ya < img.Length1 && img[minX, ya] > 0;
    var yb :| 0 <= yb < img.Length1 && img[maxX, yb] > 0;
    var xa :| 0 <= xa < img.Length0 && img[xa, minY] > 0;
    var xb :| 0 <= xb < img.Length0 && img[xb, maxY] > 0;
  }

  /**
   * The scan of `trimTransparentEdges`: starting from the inverted bounds
   * (min at the far edge, max at the near one), every pixel with alpha > 0
   * widens the box.
   */
  method OpaqueBox(img: array2<Alpha>) returns (minX: int, minY: int, maxX: int, maxY: int)
    requires img.Length0 > 0 && img.Length1 > 0
    ensures HasOpaque(img) <==> minX <= maxX
    ensures HasOpaque(img) <==> minY <= maxY
    ensures HasOpaque(img) ==> TightBox(img, minX, minY, maxX, maxY)
  {
    var w, h := img.Length0, img.Length1;
    minX, minY, maxX, maxY := w, h, 0, 0;
    ghost var found := false;
    // rows and columns of pixels achieving minX, maxX, minY, maxY
    ghost var atMinX, atMaxX, atMinY, atMaxY := 0, 0, 0, 0;
    var y := 0;
    while y < h
      invariant 0 <= y <= h
      invariant !found ==> minX == w && maxX == 0 && minY == h && maxY == 0
      invariant !found ==> forall sx, sy :: 0 <= sx < w && 0 <= sy < y ==> img[sx, sy] == 0
      invariant found ==> 0 <= minX <= maxX < w && 0 <= minY <= maxY < y
      invariant found ==> 0 <= atMinX < h && 0 <= atMaxX < h && 0 <= atMinY < w && 0 <= atMaxY < w
      invariant found ==> img[minX, atMinX] > 0 && img[maxX, atMaxX] > 0 && img[atMinY, minY] > 0 && img[atMaxY, maxY] > 0
      invariant forall sx, sy :: 0 <= sx < w && 0 <= sy < y && img[sx, sy] > 0 ==>
        minX <= sx <= maxX && minY <= sy <= maxY
    {
      var x := 0;
      while x < w
        invariant 0 <= x <= w
        invariant !found ==> minX == w && maxX == 0 && minY == h && maxY == 0
        invariant !found ==> forall sx, sy :: 0 <= sx < w && 0 <= sy < h && (sy < y || (sy == y && sx < x)) ==> img[sx, sy] == 0
        invariant found ==> 0 <= minX <= maxX < w && 0 <= minY <= maxY <= y
        invariant found ==> 0 <= atMinX < h && 0 <= atMaxX < h && 0 <= atMinY < w && 0 <= atMaxY < w
        invariant found ==> img[minX, atMinX] > 0 && img[maxX, atMaxX] > 0 && img[atMinY, minY] > 0 && img[atMaxY, maxY] > 0
        invariant forall sx, sy :: 0 <= sx < w && 0 <= sy < h && (sy < y || (sy == y && sx < x)) && img[sx, sy] > 0 ==>
          minX <= sx <= maxX && minY <= sy <= maxY
      {
        if img[x, y] > 0 {
          if !found || x < minX { atMinX := y; }
          if !found || x > maxX { atMaxX := y; }
          if !found || y < minY { atMinY := x; }
          if !found || y > maxY { atMaxY := x; }
          found := true;
          if x < minX { minX := x; }
          if x > maxX { maxX := x; }
          if y < minY { minY := y; }
          if y > maxY { maxY := y; }
        }
        x := x + 1;
      }
      y := y + 1;
    }
  }

  /** The opaque pixels reach all four edges of the image, so the tight box is the whole image. */
  ghost predicate SpansImage(img: array2<Alpha>)
    reads img
  {
    && img.Length0 > 0 && img.Length1 > 0
    && OpaqueInColumn(img, 0) && OpaqueInColumn(img, img.Length0 - 1)
    && OpaqueInRow(img, 0) && OpaqueInRow(img, img.Length1 - 1)
  }

  /** `crop` is the part of `img` whose top-left corner is (x0, y0), and that part is the tight box. */
  ghost predicate CropAt(crop: array2<Alpha>, img: array2<Alpha>, x0: int, y0: int)
    reads crop, img
  {
    && TightBox(img, x0, y0, x0 + crop.Length0 - 1, y0 + crop.Length1 - 1)
    && forall i, j :: 0 <= i < crop.Length0 && 0 <= j < crop.Length1 ==> crop[i, j] == img[x0 + i, y0 + j]
  }

  /** Copies the box [minX..maxX] x [minY..maxY] into a new image; source (x, y) lands at (x - minX, y - minY). */
  method Crop(img: array2<Alpha>, minX: int, minY: int, maxX: int, maxY: int) returns (out: array2<Alpha>)
    requires 0 <= minX <= maxX < img.Length0 && 0 <= minY <= maxY < img.Length1
    ensures fresh(out)
    ensures out.Length0 == maxX - minX + 1 && out.Length1 == maxY - minY + 1
    ensures forall i, j :: 0 <= i < out.Length0 && 0 <= j < out.Length1 ==> out[i, j] == img[minX + i, minY + j]
  {
    out := new Alpha[maxX - minX + 1, maxY - minY + 1];
    var y := minY;
    while y <= maxY
      invariant minY <= y <= maxY + 1
      invariant forall i, j :: 0 <= i < out.Length0 && 0 <= j < y - minY ==> out[i, j] == img[minX + i, minY + j]
    {
      var x, row := minX, y - minY;
      while x <= maxX
        invariant minX <= x <= maxX + 1
        invariant forall i, j :: 0 <= i < out.Length0 && 0 <= j < row ==> out[i, j] == img[minX + i, minY + j]
        invariant forall i :: 0 <= i < x - minX ==> out[i, row] == img[minX + i, y]
      {
        out[x - minX, row] := img[x, y];
        x := x + 1;
      }
      y := y + 1;
    }
  }

  /**
   * `trimTransparentEdges` on a decoded image: None when nothing is cropped
   * (the image is fully transparent, or its opaque pixels touch all four
   * edges), otherwise the new image holding exactly the tight box.
   */
  method TrimTransparentEdges(img: array2<Alpha>) returns (cropped: Option<array2<Alpha>>)
    requires img.Length0 > 0 && img.Length1 > 0
    ensures cropped.None? <==> !HasOpaque(img) || SpansImage(img)
    ensures cropped.Some? ==> fresh(cropped.value) && exists x0, y0 :: CropAt(cropped.value, img, x0, y0)
  {
    var minX, minY, maxX, maxY := OpaqueBox(img);
    if minX > maxX || minY > maxY ||
       (minX == 0 && minY == 0 && maxX == img.Length0 - 1 && maxY == img.Length1 - 1) {
      if minX <= maxX {
        SpansImageIsFullBox(img, minX, minY, maxX, maxY);
      }
      return None;
    }
    SpansImageIsFullBox(img, minX, minY, maxX, maxY);
    var out := Crop(img, minX, minY, maxX, maxY);
    assert CropAt(out, img, minX, minY);
    return Some(out);
  }

  lemma SpansImageIsFullBox(img: array2<Alpha>, minX: int, minY: int, maxX: int, maxY: int)
    requires TightBox(img, minX, minY, maxX, maxY)
    ensures SpansImage(img) <==> minX == 0 && minY == 0 && maxX == img.Length0 - 1 && maxY == img.Length1 - 1
  {
    if SpansImage(img) {
      var ya :| 0 <= ya < img.Length1 && img[0, ya] > 0;
      var yb :| 0 <= yb < img.Length1 && img[img.Length0 - 1, yb] > 0;
      var xa :| 0 <= xa < img.Length0 && img[xa, 0] > 0;
      var xb :| 0 <= xb < img.Length0 && img[xb, img.Length1 - 1] > 0;
    }
  }

  // ---- Executable names ----

  /** The bundled ffmpeg binary is named after the platform unless `simplify` is set. */
  function FfmpegName(simplify: bool, goos: string, goarch: string): string {
    "ffmpeg" + (if simplify then "" else "-" + goos + "-" + goarch) + (if goos == "windows" then ".exe" else "")
  }

  /** `getFfmpegFilename`, which builds the suffix step by step. */
  method FfmpegFilename(simplify: bool, goos: string, goarch: string) returns (name: string)
    ensures name == FfmpegName(simplify, goos, goarch)
  {
    var exeSuffix := "";
    if !simplify {
      exeSuffix := exeSuffix + "-" + goos + "-" + goarch;
    }
    if goos == "windows" {
      exeSuffix := exeSuffix + ".exe";
    }
    name := "ffmpeg" + exeSuffix;
  }

  /** `getRlottieFilename`: `lottie2gif`, with `.exe` exactly on Windows. */
  function RlottieFilename(goos: string): (r: string)
    ensures |r| >= 10 && r[..10] == "lottie2gif"
    ensures |r| == (if goos == "windows" then 14 else 10)
    ensures EndsWith(r, ".exe") <==> goos == "windows"
  {
    var r := "lottie2gif" + (if goos == "windows" then ".exe" else "");
    assert r[..10] == "lottie2gif";
    assert goos != "windows" ==> r[|r| - 4] == '2';
    assert goos == "windows" ==> r[|r| - 4..] == ".exe";
    r
  }

  predicate EndsWith(s: string, suffix: string) {
    |suffix| <= |s| && s[|s| - |suffix|..] == suffix
  }

  /**
   * The ffmpeg name carries `.exe` exactly on Windows, for any architecture
   * name without a dot (Go's are letters and digits).
   */
  lemma ExeSuffixOnlyOnWindows(simplify: bool, goos: string, goarch: string)
    requires forall i :: 0 <= i < |goarch| ==> goarch[i] != '.'
    ensures EndsWith(FfmpegName(simplify, goos, goarch), ".exe") <==> goos == "windows"
  {
    var name := FfmpegName(simplify, goos, goarch);
    if goos == "windows" {
      assert name[|name| - 4..] == ".exe";
    } else {
      if simplify {
        assert name[|name| - 4] == 'm';
      } else if |goarch| >= 4 {
        assert name[|name| - 4] == goarch[|goarch| - 4];
      } else {
        assert name[|name| - 4 + (3 - |goarch|)] == '-';
      }
    }
  }
}
