/** The image editor's transform and adjustment state
    (src/components/ImageEditor.tsx): quarter-turn rotation, two flips,
    three sliders, a filter preset and the adjustments panel. */
module ImageEditor {

  /** Number of entries in the editor's filter preset list. */
  const FilterCount: nat := 8

  /** The angles the rotation buttons can reach from 0. */
  predicate QuarterTurn(angle: int) {
    angle == 0 || angle == 90 || angle == 180 || angle == 270
  }

  /** `(prev + 90) % 360`. On the angles reached from 0 the operands are
      non-negative, where JavaScript's `%` and Dafny's agree. */
  function Clockwise(angle: int): (r: int)
    requires QuarterTurn(angle)
    ensures QuarterTurn(r)
  {
    (angle + 90) % 360
  }

  /** `(prev - 90 + 360) % 360`. */
  function CounterClockwise(angle: int): (r: int)
    requires QuarterTurn(angle)
    ensures QuarterTurn(r)
  {
    (angle - 90 + 360) % 360
  }

  /** A turn each way, in either order, restores the angle. */
  lemma TurnsCancel(angle: int)
    requires QuarterTurn(angle)
    ensures CounterClockwise(Clockwise(angle)) == angle
    ensures Clockwise(CounterClockwise(angle)) == angle
  {
  }

  /** Four clockwise turns restore the angle. */
  lemma FourTurnsRestore(angle: int)
    requires QuarterTurn(angle)
    ensures Clockwise(Clockwise(Clockwise(Clockwise(angle)))) == angle
  {
  }

  /** No fewer than four clockwise turns restore it: each of one, two and
      three turns changes the angle. */
  lemma FewerTurnsMove(angle: int)
    requires QuarterTurn(angle)
    ensures Clockwise(angle) != angle
    ensures Clockwise(Clockwise(angle)) != angle
    ensures Clockwise(Clockwise(Clockwise(angle))) != angle
  {
  }

  /** The canvas `applyEdits` draws on: the image's sides, swapped when the
      angle is 90 or 270. */
  function CanvasSize(angle: int, imgW: int, imgH: int): (size: (int, int))
    ensures size == (imgW, imgH) || size == (imgH, imgW)
    ensures size.0 * size.1 == imgW * imgH
  {
    var usePortrait := angle == 90 || angle == 270;
    (if usePortrait then imgH else imgW, if usePortrait then imgW else imgH)
  }

  /** For an image that is not square, the canvas has the image's sides
      swapped exactly at 90 and 270; at 0 it has the image's own sides. */
  lemma CanvasSwapsExactly(angle: int, imgW: int, imgH: int)
    requires QuarterTurn(angle) && imgW != imgH
    ensures CanvasSize(angle, imgW, imgH) == (imgH, imgW) <==> angle == 90 || angle == 270
    ensures CanvasSize(0, imgW, imgH) == (imgW, imgH)
  {
  }

  /** Each quarter turn, either way, swaps the canvas's sides. */
  lemma TurnSwapsCanvas(angle: int, imgW: int, imgH: int)
    requires QuarterTurn(angle)
    ensures var (w, h) := CanvasSize(angle, imgW, imgH);
      CanvasSize(Clockwise(angle), imgW, imgH) == (h, w) &&
      CanvasSize(CounterClockwise(angle), imgW, imgH) == (h, w)
  {
  }

  /** The editor's state fields that its handlers update. */
  class Editor {
    var rotationAngle: int
    var flipHorizontal: bool
    var flipVertical: bool
    var brightness: int
    var contrast: int
    var saturation: int
    var selectedFilter: int
    var showAdjustments: bool

    /** The angle is a quarter turn; sliders and the filter index stay in
        the ranges their controls allow. */
    ghost predicate Valid()
      reads this
    {
      QuarterTurn(rotationAngle) &&
      50 <= brightness <= 150 && 50 <= contrast <= 150 && 0 <= saturation <= 200 &&
      0 <= selectedFilter < FilterCount
    }

    /** The state `resetEdits` puts back. */
    ghost predicate Pristine()
      reads this
    {
      rotationAngle == 0 && !flipHorizontal && !flipVertical &&
      brightness == 100 && contrast == 100 && saturation == 100 &&
      selectedFilter == 0 && !showAdjustments
    }

    constructor ()
      ensures Valid() && Pristine()
    {
      rotationAngle := 0;
      flipHorizontal, flipVertical := false, false;
      brightness, contrast, saturation := 100, 100, 100;
      selectedFilter := 0;
      showAdjustments := false;
    }

    /** The canvas size for an `imgW` x `imgH` image at the current angle. */
    function Canvas(imgW: int, imgH: int): (size: (int, int))
      reads this
      ensures size == (imgW, imgH) || size == (imgH, imgW)
      ensures size.0 * size.1 == imgW * imgH
      ensures Valid() && imgW != imgH ==> (size == (imgH, imgW) <==> rotationAngle == 90 || rotationAngle == 270)
    {
      CanvasSize(rotationAngle, imgW, imgH)
    }

    /** `resetEdits`. */
    method ResetEdits()
      modifies this
      ensures Valid() && Pristine()
    {
      rotationAngle := 0;
      flipHorizontal := false;
      flipVertical := false;
      brightness := 100;
      contrast := 100;
      saturation := 100;
      selectedFilter := 0;
      showAdjustments := false;
    }

    /** `rotateClockwise`: only the angle changes. */
    method RotateClockwise()
      requires Valid()
      modifies this
      ensures Valid() && rotationAngle == Clockwise(old(rotationAngle))
      ensures flipHorizontal == old(flipHorizontal) && flipVertical == old(flipVertical)
      ensures brightness == old(brightness) && contrast == old(contrast) && saturation == old(saturation)
      ensures selectedFilter == old(selectedFilter) && showAdjustments == old(showAdjustments)
    {
      rotationAngle := Clockwise(rotationAngle);
    }

    /** `rotateCounterClockwise`: only the angle changes. */
    method RotateCounterClockwise()
      requires Valid()
      modifies this
      ensures Valid() && rotationAngle == CounterClockwise(old(rotationAngle))
      ensures flipHorizontal == old(flipHorizontal) && flipVertical == old(flipVertical)
      ensures brightness == old(brightness) && contrast == old(contrast) && saturation == old(saturation)
      ensures selectedFilter == old(selectedFilter) && showAdjustments == old(showAdjustments)
    {
      rotationAngle := CounterClockwise(rotationAngle);
    }

    /** `toggleHorizontalFlip`: only the horizontal flip changes. */
    method ToggleHorizontalFlip()
      requires Valid()
      modifies this
      ensures Valid() && flipHorizontal == !old(flipHorizontal)
      ensures rotationAngle == old(rotationAngle) && flipVertical == old(flipVertical)
      ensures brightness == old(brightness) && contrast == old(contrast) && saturation == old(saturation)
      ensures selectedFilter == old(selectedFilter) && showAdjustments == old(showAdjustments)
    {
      flipHorizontal := !flipHorizontal;
    }

    /** `toggleVerticalFlip`: only the vertical flip changes. */
    method ToggleVerticalFlip()
      requires Valid()
      modifies this
      ensures Valid() && flipVertical == !old(flipVertical)
      ensures rotationAngle == old(rotationAngle) && flipHorizontal == old(flipHorizontal)
      ensures brightness == old(brightness) && contrast == old(contrast) && saturation == old(saturation)
      ensures selectedFilter == old(selectedFilter) && showAdjustments == old(showAdjustments)
    {
      flipVertical := !flipVertical;
    }

    /** `toggleAdjustments`: only the panel's visibility changes. */
    method ToggleAdjustments()
      requires Valid()
      modifies this
      ensures Valid() && showAdjustments == !old(showAdjustments)
      ensures rotationAngle == old(rotationAngle)
      ensures flipHorizontal == old(flipHorizontal) && flipVertical == old(flipVertical)
      ensures brightness == old(brightness) && contrast == old(contrast) && saturation == old(saturation)
      ensures selectedFilter == old(selectedFilter)
    {
      showAdjustments := !showAdjustments;
    }

    /** The three range sliders; each control only offers values within
        its own bounds. */
    method SetAdjustments(newBrightness: int, newContrast: int, newSaturation: int)
      requires Valid()
      requires 50 <= newBrightness <= 150 && 50 <= newContrast <= 150 && 0 <= newSaturation <= 200
      modifies this
      ensures Valid()
      ensures brightness == newBrightness && contrast == newContrast && saturation == newSaturation
      ensures rotationAngle == old(rotationAngle)
      ensures flipHorizontal == old(flipHorizontal) && flipVertical == old(flipVertical)
      ensures selectedFilter == old(selectedFilter) && showAdjustments == old(showAdjustments)
    {
      brightness, contrast, saturation := newBrightness, newContrast, newSaturation;
    }

    /** A click on one of the rendered filter presets. */
    method SelectFilter(index: int)
      requires Valid() && 0 <= index < FilterCount
      modifies this
      ensures Valid() && selectedFilter == index
      ensures rotationAngle == old(rotationAngle)
      ensures flipHorizontal == old(flipHorizontal) && flipVertical == old(flipVertical)
      ensures brightness == old(brightness) && contrast == old(contrast) && saturation == old(saturation)
      ensures showAdjustments == old(showAdjustments)
    {
      selectedFilter := index;
    }
  }

  /** Toggling a flip twice restores the editor, from any state. */
  method FlipTwiceRestores(e: Editor)
    requires e.Valid()
    modifies e
    ensures e.Valid()
    ensures e.rotationAngle == old(e.rotationAngle)
    ensures e.flipHorizontal == old(e.flipHorizontal) && e.flipVertical == old(e.flipVertical)
    ensures e.brightness == old(e.brightness) && e.contrast == old(e.contrast) && e.saturation == old(e.saturation)
    ensures e.selectedFilter == old(e.selectedFilter) && e.showAdjustments == old(e.showAdjustments)
  {
    e.ToggleHorizontalFlip();
    e.ToggleHorizontalFlip();
    e.ToggleVerticalFlip();
    e.ToggleVerticalFlip();
  }
}
