/**
 * Pixel buffers and the three array operations the frame pipeline performs on
 * them: Python slice cropping (`img[r0:r1, c0:c1]`), `cv2.resize` (kept only up
 * to the size of its output), and the slice assignment that pastes resized
 * content into the canvas (`imgWhite[:, a:b] = content` and `imgWhite[a:b, :] = content`).
 */
module Imaging {
  import opened Wrappers

  newtype byte = x: int | 0 <= x < 256

  /** One BGR pixel of a `uint8` three-channel array. */
  datatype Pixel = Pixel(b: byte, g: byte, r: byte)

  /** The background colour: `np.ones(...) * 255`. */
  const White: Pixel := Pixel(255, 255, 255)

  /**
   * An image of `height` rows and `width` columns. Only `at(i, j)` with
   * `0 <= i < height` and `0 <= j < width` is meaningful; the rest is junk.
   */
  datatype Image = Image(height: nat, width: nat, at: (int, int) -> Pixel)

  /** Errors the array and OpenCV calls raise. */
  datatype Error =
    | ZeroDivision      // `h / w` with `w == 0`
    | ResizeFailed      // `cv2.resize` asserts a non-empty source and a positive target size
    | ShapeMismatch     // numpy refuses a slice assignment whose shapes differ

  /** A fresh `size x size` canvas filled with white. */
  function Blank(size: nat): (r: Image)
    ensures r.height == size && r.width == size
    ensures forall i, j :: r.at(i, j) == White
  {
    Image(size, size, (i, j) => White)
  }

  /**
   * One bound of a step-1 Python slice on an axis of length `n`: a negative
   * bound counts from the end, and the result is clamped to `[0, n]`.
   */
  function SliceIndex(i: int, n: nat): (r: nat)
    ensures r <= n
    ensures 0 <= i <= n ==> r == i
    ensures i < 0 <= i + n ==> r == i + n
    ensures i + n < 0 ==> r == 0
    ensures i > n ==> r == n
  {
    if i < 0 then (if i + n < 0 then 0 else i + n)
    else if i > n then n
    else i
  }

  /** The length of the slice `[start:stop]` on an axis of length `n`. */
  function SliceLength(start: int, stop: int, n: nat): (r: nat)
    ensures SliceIndex(start, n) + r <= n
    ensures r > 0 <==> SliceIndex(start, n) < SliceIndex(stop, n)
    ensures r > 0 ==> SliceIndex(start, n) + r == SliceIndex(stop, n)
  {
    var a := SliceIndex(start, n);
    var b := SliceIndex(stop, n);
    if a < b then b - a else 0
  }

  /** A plain in-range slice keeps exactly the requested indices. */
  lemma SliceLengthInRange(start: int, stop: int, n: nat)
    requires 0 <= start <= stop <= n
    ensures SliceLength(start, stop, n) == stop - start
  {
  }

  /**
   * A negative start counts from the end of the axis: with a stop inside the
   * axis, the slice is non-empty only when the stop passes the wrapped start.
   */
  lemma NegativeStartWraps(start: int, stop: int, n: nat)
    requires start < 0 <= start + n
    requires 0 <= stop <= n
    ensures SliceLength(start, stop, n) == if stop > start + n then stop - (start + n) else 0
  {
  }

  /**
   * `img[rowStart:rowStop, colStart:colStop]`: a view of the frame whose
   * extents follow Python slice normalisation on each axis.
   */
  function Crop(img: Image, rowStart: int, rowStop: int, colStart: int, colStop: int): (r: Image)
    ensures r.height == SliceLength(rowStart, rowStop, img.height)
    ensures r.width == SliceLength(colStart, colStop, img.width)
    ensures forall i, j :: 0 <= i < r.height && 0 <= j < r.width ==>
      r.at(i, j) == img.at(SliceIndex(rowStart, img.height) + i, SliceIndex(colStart, img.width) + j)
  {
    var r0 := SliceIndex(rowStart, img.height);
    var c0 := SliceIndex(colStart, img.width);
    Image(SliceLength(rowStart, rowStop, img.height), SliceLength(colStart, colStop, img.width),
          (i, j) => img.at(r0 + i, c0 + j))
  }

  /**
   * The pixels `cv2.resize(src, (width, height))` produces. Interpolation is
   * not modelled: any resampler may be supplied.
   */
  type Resampler = (Image, int, int) -> ((int, int) -> Pixel)

  /** `cv2.resize(src, (width, height))`: the output has exactly the requested size. */
  function Resize(src: Image, width: int, height: int, resample: Resampler): (r: Result<Image, Error>)
    ensures r.Success? <==> src.height > 0 && src.width > 0 && width > 0 && height > 0
    ensures r.Success? ==> r.value.width == width && r.value.height == height
  {
    if src.height == 0 || src.width == 0 || width <= 0 || height <= 0 then Failure(ResizeFailed)
    else Success(Image(height, width, resample(src, width, height)))
  }

  /**
   * `canvas[:, start:stop] = content`: every row gets the content's columns in
   * the sliced band. numpy raises when the shapes differ.
   */
  function PasteColumns(canvas: Image, start: int, stop: int, content: Image): (r: Result<Image, Error>)
    ensures 0 <= start <= stop <= canvas.width ==>
      (r.Success? <==> content.height == canvas.height && content.width == stop - start)
    ensures r.Success? ==> r.value.height == canvas.height && r.value.width == canvas.width
    ensures r.Success? && 0 <= start <= stop <= canvas.width ==>
      forall i, j :: 0 <= i < canvas.height && 0 <= j < canvas.width ==>
        r.value.at(i, j) == if start <= j < stop then content.at(i, j - start) else canvas.at(i, j)
  {
    var a := SliceIndex(start, canvas.width);
    var b := SliceIndex(stop, canvas.width);
    if content.height != canvas.height || content.width != SliceLength(start, stop, canvas.width) then
      Failure(ShapeMismatch)
    else
      Success(Image(canvas.height, canvas.width,
                    (i, j) => if a <= j < b then content.at(i, j - a) else canvas.at(i, j)))
  }

  /** `canvas[start:stop, :] = content`: the row-band counterpart of `PasteColumns`. */
  function PasteRows(canvas: Image, start: int, stop: int, content: Image): (r: Result<Image, Error>)
    ensures 0 <= start <= stop <= canvas.height ==>
      (r.Success? <==> content.width == canvas.width && content.height == stop - start)
    ensures r.Success? ==> r.value.height == canvas.height && r.value.width == canvas.width
    ensures r.Success? && 0 <= start <= stop <= canvas.height ==>
      forall i, j :: 0 <= i < canvas.height && 0 <= j < canvas.width ==>
        r.value.at(i, j) == if start <= i < stop then content.at(i - start, j) else canvas.at(i, j)
  {
    var a := SliceIndex(start, canvas.height);
    var b := SliceIndex(stop, canvas.height);
    if content.width != canvas.width || content.height != SliceLength(start, stop, canvas.height) then
      Failure(ShapeMismatch)
    else
      Success(Image(canvas.height, canvas.width,
                    (i, j) => if a <= i < b then content.at(i - a, j) else canvas.at(i, j)))
  }
}
