/** Turning the pointer positions sampled at press and release into the
    absolute pixel box handed to the screen grab, including the retina
    correction and the one-shot retry on macOS. */
module Capture {
  import opened Wrappers

  /** A global pointer position, in whole pixels. */
  datatype Point = Point(x: int, y: int)

  /** The grab box `(x1, y1, x2, y2)`. */
  datatype Box = Box(x1: int, y1: int, x2: int, y2: int) {
    predicate Ordered() { x1 <= x2 && y1 <= y2 }
  }

  /** `sys.platform`, reduced to the one distinction the code makes. */
  datatype Platform = Darwin | OtherPlatform

  /** A captured image; the only thing of it the window reads is its
      `filename` attribute. Images made from screen pixels have none; only an
      image loaded from a file, or one the code names by hand, has one. */
  datatype Image = Image(filename: Option<string>)

  /** The result of the release handler's grab: an image, or the exception
      raised by the grab leaving the handler. `tried` lists every box handed
      to the grab primitive, in order. */
  datatype Grab = Grabbed(image: Image, tried: seq<Box>) | Raised(tried: seq<Box>)

  /** The retina density factor: 2 on macOS, 1 elsewhere. */
  function Factor(p: Platform): (f: int)
    ensures p == Darwin ==> f == 2
    ensures p != Darwin ==> f == 1
  {
    if p == Darwin then 2 else 1
  }

  function Min(a: int, b: int): int { if a <= b then a else b }
  function Max(a: int, b: int): int { if a <= b then b else a }

  /** The grab box at full density: the corners of the dragged rectangle put
      in order and scaled by the platform's factor. */
  function Normalize(start: Point, end: Point, p: Platform): (b: Box)
    ensures b.Ordered()
    ensures b.x1 in {start.x * Factor(p), end.x * Factor(p)}
    ensures b.x2 in {start.x * Factor(p), end.x * Factor(p)}
    ensures b.y1 in {start.y * Factor(p), end.y * Factor(p)}
    ensures b.y2 in {start.y * Factor(p), end.y * Factor(p)}
  {
    var f := Factor(p);
    Box(Min(start.x, end.x) * f, Min(start.y, end.y) * f,
        Max(start.x, end.x) * f, Max(start.y, end.y) * f)
  }

  /** The retry box: every coordinate floor-divided by the factor (Dafny's
      `/` on a positive divisor is Python's `//`). */
  function RetryBox(b: Box, f: int): (r: Box)
    requires f == 1 || f == 2
    ensures f == 1 ==> r == b
    ensures b.Ordered() ==> r.Ordered()
  {
    Box(b.x1 / f, b.y1 / f, b.x2 / f, b.y2 / f)
  }

  /** The dragged rectangle itself, unscaled. */
  function Unscaled(start: Point, end: Point): Box {
    Box(Min(start.x, end.x), Min(start.y, end.y), Max(start.x, end.x), Max(start.y, end.y))
  }

  /** The release handler's grab. `grab` tells whether the grab primitive
      returns a picture for a box (`false`: it raises). The full-density box
      is tried first; if that grab fails, macOS retries once with the retry
      box and lets a second failure escape, while every other platform
      re-raises the first failure. A grabbed picture is built from screen
      pixels and has no file name. */
  function GrabSelection(start: Point, end: Point, p: Platform, grab: Box -> bool): (r: Grab)
    ensures 1 <= |r.tried| <= 2
    ensures r.tried[0] == Normalize(start, end, p)
    ensures |r.tried| == 2 <==> p == Darwin && !grab(Normalize(start, end, p))
    ensures |r.tried| == 2 ==> r.tried[1] == Unscaled(start, end)
    ensures r.Grabbed? <==> grab(r.tried[|r.tried| - 1])
    ensures r.Grabbed? ==> r.image.filename.None?
  {
    var full := Normalize(start, end, p);
    if grab(full) then Grabbed(Image(None), [full])
    else if p == Darwin then
      var retry := RetryBox(full, Factor(p));
      RetryRecoversSelection(start, end, p);
      if grab(retry) then Grabbed(Image(None), [full, retry])
      else Raised([full, retry])
    else
      Raised([full])
  }

  /** For whole-pixel pointer positions the retry box is exactly the dragged
      rectangle before scaling. */
  lemma RetryRecoversSelection(start: Point, end: Point, p: Platform)
    ensures RetryBox(Normalize(start, end, p), Factor(p)) == Unscaled(start, end)
  {
    // the factor is the literal 1 or 2, which keeps the division linear
    if p == Darwin {
      assert Factor(p) == 2;
    } else {
      assert Factor(p) == 1;
    }
  }

  /** The box does not depend on which corner the drag started from. */
  lemma NormalizeSymmetric(start: Point, end: Point, p: Platform)
    ensures Normalize(start, end, p) == Normalize(end, start, p)
  {
  }

  /** The box is exactly the ordered, scaled selection: its corners are the
      minima and maxima of the pointer coordinates times the factor. */
  lemma NormalizeIsScaledSelection(start: Point, end: Point, p: Platform)
    ensures var b := Normalize(start, end, p); var u := Unscaled(start, end);
      b == Box(u.x1 * Factor(p), u.y1 * Factor(p), u.x2 * Factor(p), u.y2 * Factor(p))
    ensures Unscaled(start, end).x1 <= start.x && Unscaled(start, end).x1 <= end.x
    ensures Unscaled(start, end).y1 <= start.y && Unscaled(start, end).y1 <= end.y
    ensures start.x <= Unscaled(start, end).x2 && end.x <= Unscaled(start, end).x2
    ensures start.y <= Unscaled(start, end).y2 && end.y <= Unscaled(start, end).y2
  {
  }

  /** A click without a drag gives a zero-area box, and normalisation still
      succeeds; whether the grab accepts it is up to the grab. */
  lemma DegenerateSelection(pt: Point, p: Platform)
    ensures Normalize(pt, pt, p).x1 == Normalize(pt, pt, p).x2 == pt.x * Factor(p)
    ensures Normalize(pt, pt, p).y1 == Normalize(pt, pt, p).y2 == pt.y * Factor(p)
  {
  }

  /** Dragging from (100,100) back to (50,50) on macOS grabs (100,100,200,200). */
  lemma RetinaExample()
    ensures Normalize(Point(100, 100), Point(50, 50), Darwin) == Box(100, 100, 200, 200)
  {
  }

  /** Off macOS the outcome is decided by the first grab alone: two grab
      primitives that agree on the full-density box give the same outcome,
      so no retry ever happens. */
  lemma NoRetryOffDarwin(start: Point, end: Point, g1: Box -> bool, g2: Box -> bool)
    requires g1(Normalize(start, end, OtherPlatform)) == g2(Normalize(start, end, OtherPlatform))
    ensures GrabSelection(start, end, OtherPlatform, g1) == GrabSelection(start, end, OtherPlatform, g2)
  {
  }

  /** On macOS the handler raises only when both the full-density and the
      unscaled grab fail. */
  lemma DarwinRaisesOnlyAfterRetry(start: Point, end: Point, grab: Box -> bool)
    ensures GrabSelection(start, end, Darwin, grab).Raised? <==>
      !grab(Normalize(start, end, Darwin)) && !grab(Unscaled(start, end))
  {
  }
}
