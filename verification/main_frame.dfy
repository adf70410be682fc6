/**
 * The crop-and-letterbox part of `SignifyApp.update_frame` (main.py lines
 * 111-131). The crop is the raw slice `img[y - offset:y + h + offset,
 * x - offset:x + w + offset]` with no clamping, so a start above or left of
 * the frame counts from the far edge.
 */
module MainFrame {
  import opened Wrappers
  import opened Imaging
  import opened FrameNormalizer

  /** `self.offset` and `self.imgSize`. */
  const Offset: int := 20
  const ImgSize: nat := 300

  /**
   * The crop at line 115, a raw slice: it fits in the frame, and while the
   * margin box starts inside the frame it is no larger than the margin box.
   */
  function MarginCrop(frame: Image, box: BoundingBox, offset: int): (r: Image)
    ensures r.height <= frame.height && r.width <= frame.width
    ensures 0 <= offset && 0 <= box.y - offset ==> r.height <= box.h + 2 * offset
    ensures 0 <= offset && 0 <= box.x - offset ==> r.width <= box.w + 2 * offset
  {
    Crop(frame, box.y - offset, box.y + box.h + offset, box.x - offset, box.x + box.w + offset)
  }

  /**
   * Lines 111-131: the canvas handed to the classifier, if any. A `Crashed`
   * outcome is an exception escaping the Tk callback before it re-arms its
   * timer at line 164, which stops further frames.
   */
  function Normalize(frame: Image, hand: Option<BoundingBox>, offset: int, imgSize: nat, resample: Resampler): (r: Outcome)
    ensures r.NoHand? <==> hand.None?
    ensures r.NoValidCrop? <==>
      hand.Some? && (MarginCrop(frame, hand.value, offset).height == 0 || MarginCrop(frame, hand.value, offset).width == 0)
    ensures r.Canvas? <==>
      && hand.Some?
      && MarginCrop(frame, hand.value, offset).height > 0 && MarginCrop(frame, hand.value, offset).width > 0
      && hand.value.w > 0 && hand.value.h > 0 && imgSize > 0
    ensures r.Canvas? ==> r.image.height == imgSize && r.image.width == imgSize
    ensures r.Canvas? ==> forall i, j ::
      (0 <= i < imgSize && 0 <= j < imgSize && !InBand(Place(hand.value.w, hand.value.h, imgSize), i, j))
      ==> r.image.at(i, j) == White
    ensures r.Canvas? ==> forall i, j ::
      (0 <= i < imgSize && 0 <= j < imgSize && InBand(Place(hand.value.w, hand.value.h, imgSize), i, j))
      ==> r.image.at(i, j) == BandPixel(MarginCrop(frame, hand.value, offset),
                                        Place(hand.value.w, hand.value.h, imgSize), imgSize, resample, i, j)
  {
    match hand
    case None => NoHand
    case Some(box) =>
      var crop := MarginCrop(frame, box, offset);
      if crop.height > 0 && crop.width > 0 then
        var res := Letterbox(crop, box, imgSize, resample);
        if res.Success? then
          LetterboxContents(crop, box, imgSize, resample);
          Canvas(res.value)
        else Crashed(res.error)
      else NoValidCrop
  }

  /** Whether the margin box `(x - offset, y - offset, w + 2 offset, h + 2 offset)` lies inside the frame. */
  predicate MarginBoxInside(box: BoundingBox, offset: int, frame: Image)
  {
    && offset >= 0
    && box.x - offset >= 0 && box.x + box.w + offset <= frame.width
    && box.y - offset >= 0 && box.y + box.h + offset <= frame.height
  }

  /** Away from the edges the crop is exactly `(h + 2 offset) x (w + 2 offset)`, cut at the margin box's corner. */
  lemma CropInsideFrame(frame: Image, box: BoundingBox, offset: int)
    requires MarginBoxInside(box, offset, frame)
    ensures MarginCrop(frame, box, offset).height == box.h + 2 * offset
    ensures MarginCrop(frame, box, offset).width == box.w + 2 * offset
    ensures forall i, j :: 0 <= i < box.h + 2 * offset && 0 <= j < box.w + 2 * offset ==>
      MarginCrop(frame, box, offset).at(i, j) == frame.at(box.y - offset + i, box.x - offset + j)
  {
    SliceLengthInRange(box.y - offset, box.y + box.h + offset, frame.height);
    SliceLengthInRange(box.x - offset, box.x + box.w + offset, frame.width);
  }

  /**
   * A hand whose margin reaches above the top edge: the row start wraps to
   * `H + y - offset`, and the crop keeps only rows the stop reaches past it.
   */
  lemma CropAboveTopWraps(frame: Image, box: BoundingBox, offset: int)
    requires box.y - offset < 0 <= box.y - offset + frame.height
    requires 0 <= box.y + box.h + offset <= frame.height
    ensures var extra := box.h + 2 * offset - frame.height;
      MarginCrop(frame, box, offset).height == if extra > 0 then extra else 0
  {
    NegativeStartWraps(box.y - offset, box.y + box.h + offset, frame.height);
  }

  /**
   * Hence a detected hand within `offset` pixels of the top edge whose margin box
   * is shorter than the frame is never classified.
   */
  lemma HandNearTopEdgeSkipped(frame: Image, box: BoundingBox, offset: int, imgSize: nat, resample: Resampler)
    requires box.y - offset < 0 <= box.y - offset + frame.height
    requires 0 <= box.y + box.h + offset <= frame.height
    requires box.h + 2 * offset <= frame.height
    ensures Normalize(frame, Some(box), offset, imgSize, resample) == NoValidCrop
  {
    CropAboveTopWraps(frame, box, offset);
  }

  /** On a 640 x 480 frame, a 100-pixel-tall hand at `y = 10` yields no canvas. */
  lemma TopEdgeExample(frame: Image, resample: Resampler)
    requires frame.width == 640 && frame.height == 480
    ensures Normalize(frame, Some(BoundingBox(200, 10, 80, 100)), Offset, ImgSize, resample) == NoValidCrop
  {
    HandNearTopEdgeSkipped(frame, BoundingBox(200, 10, 80, 100), Offset, ImgSize, resample);
  }
}
