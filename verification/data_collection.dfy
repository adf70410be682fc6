/**
 * The data-collection script (dataCollection.py): the crop rectangle clamped
 * with `max`/`min` (lines 48-55), the same letterbox block (lines 57-89), and
 * the save key (lines 102-106), whose presence test `'imgWhite' in locals()`
 * runs at module scope and therefore sees a canvas left over from any earlier
 * iteration of the loop.
 */
module DataCollection {
  import opened Wrappers
  import opened Imaging
  import opened FrameNormalizer
  import MainFrame

  /** `offset`, `imgSize` and `ord("s")`. */
  const Offset: int := 20
  const ImgSize: nat := 300
  const SaveKey: int := 115

  /** The corners `(x1, y1)` and `(x2, y2)` computed at lines 48-49. */
  datatype Rect = Rect(x1: int, y1: int, x2: int, y2: int)

  /**
   * The margin box clamped to the frame: the start corner is pushed to at
   * least 0 and the stop corner to at most the frame size.
   */
  function ClampedRect(box: BoundingBox, offset: int, frameWidth: nat, frameHeight: nat): (r: Rect)
    ensures 0 <= r.x1 && 0 <= r.y1 && r.x2 <= frameWidth && r.y2 <= frameHeight
    ensures box.x - offset <= r.x1 && r.x2 <= box.x + box.w + offset
    ensures box.y - offset <= r.y1 && r.y2 <= box.y + box.h + offset
    ensures 0 <= box.x - offset && box.x + box.w + offset <= frameWidth
      ==> r.x1 == box.x - offset && r.x2 == box.x + box.w + offset
    ensures 0 <= box.y - offset && box.y + box.h + offset <= frameHeight
      ==> r.y1 == box.y - offset && r.y2 == box.y + box.h + offset
  {
    Rect(Max(0, box.x - offset), Max(0, box.y - offset),
         Min(frameWidth, box.x + box.w + offset), Min(frameHeight, box.y + box.h + offset))
  }

  function Max(a: int, b: int): int { if a < b then b else a }
  function Min(a: int, b: int): int { if a < b then a else b }

  /**
   * `img[y1:y2, x1:x2]` at line 52; still a Python slice. It fits in the frame,
   * and unless the stop corner itself is negative it is no larger than the margin box.
   */
  function ClampedCrop(frame: Image, box: BoundingBox, offset: int): (r: Image)
    ensures r.height <= frame.height && r.width <= frame.width
    ensures 0 <= offset && 0 <= box.y + box.h + offset ==> r.height <= box.h + 2 * offset
    ensures 0 <= offset && 0 <= box.x + box.w + offset ==> r.width <= box.w + 2 * offset
  {
    var r := ClampedRect(box, offset, frame.width, frame.height);
    Crop(frame, r.y1, r.y2, r.x1, r.x2)
  }

  /**
   * The crop's extents are `max(0, x2 - x1)` by `max(0, y2 - y1)` as long as
   * the clamped stop corner is not negative (a negative stop would itself wrap).
   */
  lemma ClampedCropExtents(frame: Image, box: BoundingBox, offset: int)
    requires ClampedRect(box, offset, frame.width, frame.height).x2 >= 0
    requires ClampedRect(box, offset, frame.width, frame.height).y2 >= 0
    ensures var r := ClampedRect(box, offset, frame.width, frame.height);
      && ClampedCrop(frame, box, offset).width == Max(0, r.x2 - r.x1)
      && ClampedCrop(frame, box, offset).height == Max(0, r.y2 - r.y1)
  {
  }

  /** When the margin box lies inside the frame the crop is `(h + 2 offset) x (w + 2 offset)`. */
  lemma ClampedCropInsideFrame(frame: Image, box: BoundingBox, offset: int)
    requires MainFrame.MarginBoxInside(box, offset, frame)
    ensures ClampedCrop(frame, box, offset).width == box.w + 2 * offset
    ensures ClampedCrop(frame, box, offset).height == box.h + 2 * offset
  {
    ClampedCropExtents(frame, box, offset);
  }

  /** Lines 43-89: the canvas this iteration builds, if any. */
  function Normalize(frame: Image, hand: Option<BoundingBox>, offset: int, imgSize: nat, resample: Resampler): (r: Outcome)
    ensures r.NoHand? <==> hand.None?
    ensures r.NoValidCrop? <==>
      hand.Some? && (ClampedCrop(frame, hand.value, offset).height == 0 || ClampedCrop(frame, hand.value, offset).width == 0)
    ensures r.Canvas? <==>
      && hand.Some?
      && ClampedCrop(frame, hand.value, offset).height > 0 && ClampedCrop(frame, hand.value, offset).width > 0
      && hand.value.w > 0 && hand.value.h > 0 && imgSize > 0
    ensures r.Canvas? ==> r.image.height == imgSize && r.image.width == imgSize
    ensures r.Canvas? ==> forall i, j ::
      (0 <= i < imgSize && 0 <= j < imgSize && !InBand(Place(hand.value.w, hand.value.h, imgSize), i, j))
      ==> r.image.at(i, j) == White
  {
    match hand
    case None => NoHand
    case Some(box) =>
      var crop := ClampedCrop(frame, box, offset);
      if crop.height > 0 && crop.width > 0 then
        var res := Letterbox(crop, box, imgSize, resample);
        if res.Success? then
          LetterboxContents(crop, box, imgSize, resample);
          Canvas(res.value)
        else Crashed(res.error)
      else NoValidCrop
  }

  /**
   * Scaling uses the unclamped `w` and `h`: a hand cut off by the frame edge
   * still gets the band its full bounding box dictates, with the clamped crop
   * stretched into it.
   */
  lemma ScalingUsesUnclampedBox(frame: Image, box: BoundingBox, offset: int, imgSize: nat, resample: Resampler)
    requires Normalize(frame, Some(box), offset, imgSize, resample).Canvas?
    ensures var c := Normalize(frame, Some(box), offset, imgSize, resample).image;
      var p := Place(box.w, box.h, imgSize);
      var crop := ClampedCrop(frame, box, offset);
      forall i, j :: 0 <= i < imgSize && 0 <= j < imgSize && InBand(p, i, j) ==>
        c.at(i, j) == BandPixel(crop, p, imgSize, resample, i, j)
  {
    LetterboxContents(ClampedCrop(frame, box, offset), box, imgSize, resample);
  }

  /** Away from the frame edges the two scripts build the same canvas. */
  lemma AgreesWithMainInsideFrame(frame: Image, box: BoundingBox, offset: int, imgSize: nat, resample: Resampler)
    requires MainFrame.MarginBoxInside(box, offset, frame)
    ensures Normalize(frame, Some(box), offset, imgSize, resample)
         == MainFrame.Normalize(frame, Some(box), offset, imgSize, resample)
  {
    assert ClampedCrop(frame, box, offset) == MainFrame.MarginCrop(frame, box, offset);
  }

  /** The loop state the save key reads: the counter and the module-scope `imgWhite`, once bound. */
  datatype Collector = Collector(counter: nat, imgWhite: Option<Image>)

  /** Before the first iteration: `counter = 0` and no `imgWhite` in scope. */
  const Start: Collector := Collector(0, None)

  /**
   * One iteration's inputs: the frame, the detector's first hand, the key
   * `cv2.waitKey` returned, and whether `cv2.imwrite` would succeed. The
   * script discards `imwrite`'s return value, so `Step` reads nothing from
   * `writeOk`; the field is there only to let `WriteResultIgnored` say so.
   */
  datatype Tick = Tick(frame: Image, hand: Option<BoundingBox>, key: int, writeOk: bool)

  /** After an iteration: the loop goes on, with the image handed to `imwrite` if any, or the script died. */
  datatype StepResult = Running(state: Collector, written: Option<Image>) | Died(error: Error)

  /** One iteration of the `while True` loop, Esc and window-close aside. */
  function Step(s: Collector, t: Tick, resample: Resampler): (r: StepResult)
    ensures r.Died? <==> Normalize(t.frame, t.hand, Offset, ImgSize, resample).Crashed?
    ensures r.Running? ==> r.state.counter >= s.counter
    ensures r.Running? ==>
      (r.state.counter == s.counter + 1 <==> t.key == SaveKey && r.state.imgWhite.Some?)
    ensures r.Running? ==> r.state.counter <= s.counter + 1
    ensures r.Running? && t.key != SaveKey ==> r.state.counter == s.counter && r.written.None?
    ensures r.Running? && r.written.Some? ==> r.state.imgWhite.Some? && r.written.value == r.state.imgWhite.value
    ensures r.Running? ==> (r.written.Some? <==> r.state.counter == s.counter + 1)
    ensures r.Running? && s.imgWhite.Some? ==> r.state.imgWhite.Some?
    ensures r.Running? ==>
      r.state.imgWhite == (var built := Normalize(t.frame, t.hand, Offset, ImgSize, resample);
                           if built.Canvas? then Some(built.image) else s.imgWhite)
  {
    var built := Normalize(t.frame, t.hand, Offset, ImgSize, resample);
    if built.Crashed? then Died(built.error)
    else
      var imgWhite := if built.Canvas? then Some(built.image) else s.imgWhite;
      if t.key == SaveKey && imgWhite.Some? then
        // the counter moves before imwrite, whose result is not looked at
        Running(Collector(s.counter + 1, imgWhite), imgWhite)
      else
        Running(Collector(s.counter, imgWhite), None)
  }

  /** A later tick with no hand still saves the canvas an earlier tick left behind. */
  lemma StaleCanvasSaved(s: Collector, t: Tick, resample: Resampler)
    requires s.imgWhite.Some? && t.hand.None? && t.key == SaveKey
    ensures Step(s, t, resample).Running?
    ensures Step(s, t, resample).state.counter == s.counter + 1
    ensures Step(s, t, resample).written == s.imgWhite
  {
  }

  /** A failed `imwrite` counts exactly like a successful one (by construction: `Step` never reads `writeOk`). */
  lemma WriteResultIgnored(s: Collector, t: Tick, resample: Resampler)
    ensures Step(s, t, resample) == Step(s, t.(writeOk := !t.writeOk), resample)
  {
  }

  /** A sequence of iterations, stopping at the first that dies; a bound canvas stays bound. */
  function Run(s: Collector, ticks: seq<Tick>, resample: Resampler): (r: StepResult)
    ensures r.Running? && s.imgWhite.Some? ==> r.state.imgWhite.Some?
    decreases |ticks|
  {
    if |ticks| == 0 then Running(s, None)
    else
      match Step(s, ticks[0], resample)
      case Died(e) => Died(e)
      case Running(next, _) => Run(next, ticks[1..], resample)
  }

  /** The loop state after one iteration, with what it handed to `imwrite` dropped, as `Run` reports it. */
  function StepState(s: Collector, t: Tick, resample: Resampler): StepResult
  {
    match Step(s, t, resample)
    case Died(e) => Died(e)
    case Running(next, _) => Running(next, None)
  }

  /**
   * Running one more iteration: a run that died stays dead, and one that is
   * still going takes exactly one more `Step` from the state it reached.
   */
  lemma {:induction false} RunThenStep(s: Collector, ticks: seq<Tick>, t: Tick, resample: Resampler)
    ensures Run(s, ticks + [t], resample) ==
      match Run(s, ticks, resample)
      case Died(e) => Died(e)
      case Running(st, _) => StepState(st, t, resample)
    decreases |ticks|
  {
    if |ticks| == 0 {
      assert ticks + [t] == [t];
    } else {
      assert (ticks + [t])[0] == ticks[0];
      assert (ticks + [t])[1..] == ticks[1..] + [t];
      match Step(s, ticks[0], resample)
      case Died(e) =>
      case Running(next, _) => RunThenStep(next, ticks[1..], t, resample);
    }
  }

  /** Whether an iteration builds a canvas. */
  predicate BuildsCanvas(t: Tick, resample: Resampler)
  {
    Normalize(t.frame, t.hand, Offset, ImgSize, resample).Canvas?
  }

  /** Until some iteration has built a canvas, pressing 's' saves nothing. */
  lemma {:induction false} NoSaveBeforeFirstCanvas(s: Collector, ticks: seq<Tick>, resample: Resampler)
    requires s.imgWhite.None?
    requires forall k :: 0 <= k < |ticks| ==> !BuildsCanvas(ticks[k], resample)
    ensures Run(s, ticks, resample).Running? ==>
      Run(s, ticks, resample).state.counter == s.counter && Run(s, ticks, resample).state.imgWhite.None?
    decreases |ticks|
  {
    if |ticks| > 0 {
      var r := Step(s, ticks[0], resample);
      assert !BuildsCanvas(ticks[0], resample);
      if r.Running? {
        assert r.state == s;
        forall k | 0 <= k < |ticks[1..]|
          ensures !BuildsCanvas(ticks[1..][k], resample)
        {
          assert ticks[1..][k] == ticks[k + 1];
        }
        NoSaveBeforeFirstCanvas(r.state, ticks[1..], resample);
      }
    }
  }

  /** The counter never decreases over a run and grows by at most one per iteration. */
  lemma {:induction false} RunCounterBounds(s: Collector, ticks: seq<Tick>, resample: Resampler)
    ensures Run(s, ticks, resample).Running? ==>
      s.counter <= Run(s, ticks, resample).state.counter <= s.counter + |ticks|
    decreases |ticks|
  {
    if |ticks| > 0 {
      var r := Step(s, ticks[0], resample);
      if r.Running? {
        RunCounterBounds(r.state, ticks[1..], resample);
      }
    }
  }
}
