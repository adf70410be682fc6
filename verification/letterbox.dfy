/**
 * The letterbox block both scripts share (main.py lines 118-131 and
 * dataCollection.py lines 60-89): scale the crop so that the bounding box's
 * dominant side fills the canvas, centre it on the other axis, and paste it
 * into a white `imgSize x imgSize` canvas. The ratio and the scale use the
 * bounding box's own `w` and `h`, never the crop's extents.
 *
 * `k * w` and `k * h` are computed in exact rational arithmetic, so every
 * `math.ceil` becomes an integer ceiling division.
 */
module FrameNormalizer {
  import opened Wrappers
  import opened Imaging

  /** A hand bounding box `(x, y, w, h)`; the detector reports `max - min`, so the sides are never negative. */
  datatype BoundingBox = BoundingBox(x: int, y: int, w: nat, h: nat)

  /** `math.ceil(a / b)` for a positive divisor. */
  function CeilDiv(a: int, b: int): (q: int)
    requires b > 0
    ensures b * (q - 1) < a <= b * q
  {
    -((-a) / b)
  }

  /** Which canvas axis receives the centred band. */
  datatype Axis =
    | Columns   // height-dominant box: full-height content, band of columns
    | Rows      // width-dominant or square box: full-width content, band of rows

  /** The band `[gap, gap + size)` the resized content occupies on `axis`. */
  datatype Placement = Placement(axis: Axis, gap: int, size: int)

  /**
   * `wCal`/`wGap` when `h / w > 1`, otherwise `hCal`/`hGap`. Only reached
   * after `h / w` has succeeded, hence `w > 0`.
   */
  function Place(w: nat, h: nat, imgSize: nat): (p: Placement)
    requires w > 0
    ensures p.axis == Columns <==> h > w
    ensures p.axis == Columns ==> h * (p.size - 1) < imgSize * w <= h * p.size
    ensures p.axis == Rows ==> w * (p.size - 1) < imgSize * h <= w * p.size
    ensures 2 * (p.gap - 1) < imgSize - p.size <= 2 * p.gap
  {
    if h > w then
      var wCal := CeilDiv(imgSize * w, h);
      Placement(Columns, CeilDiv(imgSize - wCal, 2), wCal)
    else
      var hCal := CeilDiv(imgSize * h, w);
      Placement(Rows, CeilDiv(imgSize - hCal, 2), hCal)
  }

  /** Multiplying by a non-negative factor preserves `<=`. */
  lemma MulMonotone(k: int, a: int, b: int)
    requires k >= 0 && a <= b
    ensures k * a <= k * b
  {
    assert k * b - k * a == k * (b - a);
  }

  /** A ceiling quotient is bounded by any `m` with `a <= b * m`, and is positive for positive `a`. */
  lemma CeilDivBounds(a: int, b: int, m: int)
    requires b > 0 && 0 <= a <= b * m
    ensures 0 <= CeilDiv(a, b) <= m
    ensures a > 0 ==> CeilDiv(a, b) >= 1
  {
    var q := CeilDiv(a, b);
    if q > m {
      MulMonotone(b, m, q - 1);
    }
    if q < 0 || (a > 0 && q < 1) {
      MulMonotone(b, q, 0);
    }
  }

  /** The scaled side never exceeds the canvas and is positive once both sides and the canvas are. */
  lemma ScaledSideBounds(w: nat, h: nat, imgSize: nat)
    requires w > 0
    ensures 0 <= Place(w, h, imgSize).size <= imgSize
    ensures imgSize > 0 && h > 0 ==> 1 <= Place(w, h, imgSize).size
  {
    if h > w {
      MulMonotone(imgSize, w, h);
      CeilDivBounds(imgSize * w, h, imgSize);
    } else {
      MulMonotone(imgSize, h, w);
      CeilDivBounds(imgSize * h, w, imgSize);
      if imgSize > 0 && h > 0 {
        MulMonotone(imgSize, 1, h);
      }
    }
  }

  /** The band lies inside the canvas, so the slice assignment at main.py:125/131 is in range. */
  lemma PlacementFits(w: nat, h: nat, imgSize: nat)
    requires w > 0
    ensures 0 <= Place(w, h, imgSize).gap
    ensures Place(w, h, imgSize).gap + Place(w, h, imgSize).size <= imgSize
  {
    ScaledSideBounds(w, h, imgSize);
  }

  /** Centring: the gap before the band exceeds the gap after it by at most one pixel. */
  lemma Centred(w: nat, h: nat, imgSize: nat)
    requires w > 0
    ensures var p := Place(w, h, imgSize);
      var after := imgSize - p.gap - p.size;
      p.gap == after || p.gap == after + 1
  {
  }

  /** A square box takes the row branch and fills the whole canvas: `hCal == imgSize`, `hGap == 0`. */
  lemma SquareFillsCanvas(side: nat, imgSize: nat)
    requires side > 0
    ensures Place(side, side, imgSize) == Placement(Rows, 0, imgSize)
  {
    var q := CeilDiv(imgSize * side, side);
    assert side * (q - 1) < side * imgSize <= side * q;
    if q > imgSize {
      MulMonotone(side, imgSize, q - 1);
    } else if q < imgSize {
      MulMonotone(side, q, imgSize - 1);
    }
  }

  /** The worked example: a 100 x 200 box on a 300 canvas occupies columns [75, 225). */
  lemma TallBoxExample()
    ensures Place(100, 200, 300) == Placement(Columns, 75, 150)
  {
  }

  /** Whether canvas pixel `(i, j)` lies in the band a placement covers. */
  predicate InBand(p: Placement, i: int, j: int)
  {
    match p.axis
    case Columns => p.gap <= j < p.gap + p.size
    case Rows => p.gap <= i < p.gap + p.size
  }

  /** The pixel the resized crop puts at canvas position `(i, j)` inside the band. */
  function BandPixel(crop: Image, p: Placement, size: nat, resample: Resampler, i: int, j: int): Pixel
  {
    match p.axis
    case Columns => resample(crop, p.size, size)(i, j - p.gap)
    case Rows => resample(crop, size, p.size)(i - p.gap, j)
  }

  /**
   * `cv2.resize` to `(wCal, imgSize)` and `imgWhite[:, wGap:wCal + wGap] = ...`
   * (main.py 123-125), or the row counterpart (main.py 129-131).
   */
  function FillBand(canvas: Image, crop: Image, p: Placement, resample: Resampler): (r: Result<Image, Error>)
    requires canvas.height == canvas.width
    requires 0 <= p.gap && p.gap + p.size <= canvas.width
    ensures r.Success? <==> crop.height > 0 && crop.width > 0 && p.size > 0 && canvas.width > 0
    ensures r.Success? ==> r.value.height == canvas.height && r.value.width == canvas.width
    ensures r.Success? ==> forall i, j :: 0 <= i < canvas.height && 0 <= j < canvas.width ==>
      r.value.at(i, j) == if InBand(p, i, j) then BandPixel(crop, p, canvas.width, resample, i, j) else canvas.at(i, j)
  {
    match p.axis
    case Columns =>
      (match Resize(crop, p.size, canvas.height, resample)
       case Failure(e) => Failure(e)
       case Success(content) => PasteColumns(canvas, p.gap, p.size + p.gap, content))
    case Rows =>
      (match Resize(crop, canvas.width, p.size, resample)
       case Failure(e) => Failure(e)
       case Success(content) => PasteRows(canvas, p.gap, p.size + p.gap, content))
  }

  /**
   * Lines 118-131 of main.py (60-89 of dataCollection.py) applied to a
   * non-empty crop: the white canvas with the resized crop pasted into its band.
   */
  function Letterbox(crop: Image, box: BoundingBox, imgSize: nat, resample: Resampler): (r: Result<Image, Error>)
    ensures box.w == 0 ==> r.Failure? && r.error == ZeroDivision
    ensures r.Success? <==> crop.height > 0 && crop.width > 0 && box.w > 0 && box.h > 0 && imgSize > 0
    ensures r.Success? ==> r.value.height == imgSize && r.value.width == imgSize
  {
    if box.w == 0 then Failure(ZeroDivision)
    else
      PlacementFits(box.w, box.h, imgSize);
      ScaledSideBounds(box.w, box.h, imgSize);
      FillBand(Blank(imgSize), crop, Place(box.w, box.h, imgSize), resample)
  }

  /** What one camera tick yields for the classifier or the save key. */
  datatype Outcome =
    | NoHand                  // `if hands:` failed
    | NoValidCrop             // a crop extent was 0
    | Crashed(error: Error)   // the letterbox block raised
    | Canvas(image: Image)    // the finished `imgWhite`

  /**
   * Every pixel outside the band keeps the value 255, and every pixel inside
   * it is the resized crop's pixel, shifted by the gap.
   */
  lemma LetterboxContents(crop: Image, box: BoundingBox, imgSize: nat, resample: Resampler)
    requires Letterbox(crop, box, imgSize, resample).Success?
    ensures var c := Letterbox(crop, box, imgSize, resample).value;
      var p := Place(box.w, box.h, imgSize);
      forall i, j :: 0 <= i < imgSize && 0 <= j < imgSize ==>
        c.at(i, j) == if InBand(p, i, j) then BandPixel(crop, p, imgSize, resample, i, j) else White
  {
    PlacementFits(box.w, box.h, imgSize);
  }
}
