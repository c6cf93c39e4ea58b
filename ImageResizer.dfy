/** The social-media resizer (src/components/ImageResizer.tsx): the
    fit-and-centre rectangle drawn on the target canvas, the download
    filename, and the custom-size form with its aspect-ratio lock. */
module ImageResizer {
  import opened Common
  import opened Text
  import opened Types

  /** Keys of the icon table the preset buttons look their icon up in. */
  const IconMapKeys: set<string> := {"instagram", "twitter", "facebook", "linkedin", "youtube"}

  /** The aspect-ratio buttons of custom mode; 0 stands for "Custom" (no ratio). */
  const AspectRatios: seq<(string, real)> := [
    ("1:1", 1.0), ("4:3", 4.0 / 3.0), ("3:2", 3.0 / 2.0), ("16:9", 16.0 / 9.0), ("2:1", 2.0), ("Custom", 0.0)
  ]

  /** Only the "Custom" button offers no ratio; every other button offers
      a positive one, so picking it with the lock on recomputes the height,
      and its label's two numbers are in that ratio. */
  lemma AspectRatioButtons()
    ensures forall i :: 0 <= i < |AspectRatios| ==> (AspectRatios[i].1 > 0.0 <==> AspectRatios[i].0 != "Custom")
    ensures AspectRatios[3] == ("16:9", 16.0 / 9.0)
  {
  }

  /** Every preset's icon has an entry in the icon table. */
  lemma PresetIconsMapped()
    ensures forall i :: 0 <= i < |SocialMediaSizes| ==> SocialMediaSizes[i].icon in IconMapKeys
  {
  }

  // ---------------------------------------------------------------------
  // Fit and centre

  /** Where the image is drawn on the canvas: top-left offset and size. */
  datatype Rect = Rect(offsetX: real, offsetY: real, drawWidth: real, drawHeight: real)

  /** The rectangle lies inside a `targetW` x `targetH` canvas. */
  predicate Contained(r: Rect, targetW: real, targetH: real) {
    0.0 <= r.offsetX && 0.0 <= r.offsetY &&
    r.offsetX + r.drawWidth <= targetW && r.offsetY + r.drawHeight <= targetH
  }

  /** The rectangle's margins are equal left and right, top and bottom. */
  predicate Centred(r: Rect, targetW: real, targetH: real) {
    2.0 * r.offsetX + r.drawWidth == targetW && 2.0 * r.offsetY + r.drawHeight == targetH
  }

  /** The rectangle is the image scaled by one factor `k` on both axes. */
  predicate ScaledBy(r: Rect, imgW: real, imgH: real, k: real) {
    r.drawWidth == k * imgW && r.drawHeight == k * imgH
  }

  /** The body of the `img.onload` handlers of `resizeImage` and
      `resizeCustom`: when the image is relatively wider than the canvas it
      spans the canvas width and is centred vertically, otherwise (equal
      ratios included) it spans the canvas height and is centred
      horizontally. */
  function FitRect(imgW: real, imgH: real, targetW: real, targetH: real): (r: Rect)
    requires imgW > 0.0 && imgH > 0.0 && targetW > 0.0 && targetH > 0.0
    ensures imgW / imgH > targetW / targetH ==> r.drawWidth == targetW && r.offsetX == 0.0
    ensures imgW / imgH <= targetW / targetH ==> r.drawHeight == targetH && r.offsetY == 0.0
  {
    var imgRatio := imgW / imgH;
    var targetRatio := targetW / targetH;
    if imgRatio > targetRatio then
      var drawWidth := targetW;
      var drawHeight := drawWidth / imgRatio;
      Rect(0.0, (targetH - drawHeight) / 2.0, drawWidth, drawHeight)
    else
      var drawHeight := targetH;
      var drawWidth := drawHeight * imgRatio;
      Rect((targetW - drawWidth) / 2.0, 0.0, drawWidth, drawHeight)
  }

  /** The scale factor FitRect applies to the image: the smaller of
      `targetW / imgW` and `targetH / imgH`, the largest at which both
      sides fit. */
  function FitScale(imgW: real, imgH: real, targetW: real, targetH: real): (k: real)
    requires imgW > 0.0 && imgH > 0.0 && targetW > 0.0 && targetH > 0.0
    ensures k > 0.0 && k * imgW <= targetW && k * imgH <= targetH
    ensures k * imgW == targetW || k * imgH == targetH
  {
    if imgW * targetH > targetW * imgH then
      assert targetW / imgW * imgH < targetH by {
        assert targetW * imgH < imgW * targetH;
        assert targetW * imgH / imgW < targetH;
      }
      targetW / imgW
    else
      assert targetH / imgH * imgW <= targetW by {
        assert targetH * imgW <= targetW * imgH;
        assert targetH * imgW / imgH <= targetW;
      }
      targetH / imgH
  }

  /** The fitted rectangle is the image scaled uniformly by FitScale, so
      its aspect ratio is the image's. */
  lemma FitPreservesAspect(imgW: real, imgH: real, targetW: real, targetH: real)
    requires imgW > 0.0 && imgH > 0.0 && targetW > 0.0 && targetH > 0.0
    ensures ScaledBy(FitRect(imgW, imgH, targetW, targetH), imgW, imgH, FitScale(imgW, imgH, targetW, targetH))
    ensures var r := FitRect(imgW, imgH, targetW, targetH); r.drawWidth / r.drawHeight == imgW / imgH
  {
    var r := FitRect(imgW, imgH, targetW, targetH);
    var k := FitScale(imgW, imgH, targetW, targetH);
    RatioOrder(imgW, imgH, targetW, targetH);
    if imgW / imgH > targetW / targetH {
      DivideByRatio(targetW, imgW, imgH);
    } else {
      MultiplyByRatio(targetH, imgW, imgH);
    }
    CommonFactor(k, imgW, imgH);
  }

  /** `c / (w / h)` is `c / w * h`. */
  lemma DivideByRatio(c: real, w: real, h: real)
    requires w > 0.0 && h > 0.0
    ensures c / (w / h) == c / w * h
  {
    var q := w / h;
    assert q * h == w;
    assert (c / w * h) * q == c / w * (h * q);
    assert c / w * w == c;
  }

  /** `c * (w / h)` is `c / h * w`. */
  lemma MultiplyByRatio(c: real, w: real, h: real)
    requires w > 0.0 && h > 0.0
    ensures c * (w / h) == c / h * w
  {
  }

  /** Scaling both sides by the same positive factor keeps their ratio. */
  lemma CommonFactor(k: real, w: real, h: real)
    requires k > 0.0 && w > 0.0 && h > 0.0
    ensures (k * w) / (k * h) == w / h
  {
    var q := w / h;
    assert q * h == w;
    assert q * (k * h) == k * w;
  }

  /** Comparing the ratios is comparing the cross products. */
  lemma RatioOrder(imgW: real, imgH: real, targetW: real, targetH: real)
    requires imgW > 0.0 && imgH > 0.0 && targetW > 0.0 && targetH > 0.0
    ensures imgW / imgH > targetW / targetH <==> imgW * targetH > targetW * imgH
  {
    assert imgW / imgH * (imgH * targetH) == imgW * targetH;
    assert targetW / targetH * (imgH * targetH) == targetW * imgH;
  }

  /** The fitted rectangle lies inside the canvas, centred, and touches
      two opposite edges. */
  lemma FitContainedAndCentred(imgW: real, imgH: real, targetW: real, targetH: real)
    requires imgW > 0.0 && imgH > 0.0 && targetW > 0.0 && targetH > 0.0
    ensures var r := FitRect(imgW, imgH, targetW, targetH);
      Contained(r, targetW, targetH) && Centred(r, targetW, targetH) &&
      r.drawWidth > 0.0 && r.drawHeight > 0.0 &&
      (r.drawWidth == targetW || r.drawHeight == targetH)
  {
    FitPreservesAspect(imgW, imgH, targetW, targetH);
  }

  /** No larger copy of the image fits: any uniform scaling of the image
      that fits inside the canvas is no larger than the fitted rectangle. */
  lemma FitIsLargest(imgW: real, imgH: real, targetW: real, targetH: real, s: real)
    requires imgW > 0.0 && imgH > 0.0 && targetW > 0.0 && targetH > 0.0
    requires s > 0.0 && s * imgW <= targetW && s * imgH <= targetH
    ensures var r := FitRect(imgW, imgH, targetW, targetH);
      s * imgW <= r.drawWidth && s * imgH <= r.drawHeight
  {
    FitPreservesAspect(imgW, imgH, targetW, targetH);
    var k := FitScale(imgW, imgH, targetW, targetH);
    if k * imgW == targetW {
      FactorBelow(s, k, imgW);
    } else {
      FactorBelow(s, k, imgH);
    }
  }

  /** Cancelling a positive common factor keeps the order. */
  lemma FactorBelow(s: real, k: real, x: real)
    requires x > 0.0 && s * x <= k * x
    ensures s <= k
  {
  }

  /** An image with the canvas's own aspect ratio fills the canvas. */
  lemma FitSameRatioFills(imgW: real, imgH: real, targetW: real, targetH: real)
    requires imgW > 0.0 && imgH > 0.0 && targetW > 0.0 && targetH > 0.0
    requires imgW * targetH == targetW * imgH
    ensures FitRect(imgW, imgH, targetW, targetH) == Rect(0.0, 0.0, targetW, targetH)
  {
    RatioOrder(imgW, imgH, targetW, targetH);
    FitContainedAndCentred(imgW, imgH, targetW, targetH);
    FitPreservesAspect(imgW, imgH, targetW, targetH);
  }

  /** A 1920x1080 photo on the 1080x1080 Instagram canvas: full width,
      607.5 high, 236.25 from the top. */
  lemma FitLandscapeOnSquare()
    ensures FitRect(1920.0, 1080.0, 1080.0, 1080.0) == Rect(0.0, 236.25, 1080.0, 607.5)
  {
  }

  /** An 800x600 photo on the 1200x627 LinkedIn canvas: full height,
      836 wide, 182 from the left. */
  lemma FitOnLinkedIn()
    ensures FitRect(800.0, 600.0, 1200.0, 627.0) == Rect(182.0, 0.0, 836.0, 627.0)
  {
  }

  /** `resizeImage(size)`: in preset mode, the image scaled by the fit
      factor and centred on the preset's canvas; in custom mode it returns
      without drawing. */
  function ResizeImage(customMode: bool, imgW: int, imgH: int, size: SocialMediaDimensions): (r: Option<Rect>)
    requires imgW > 0 && imgH > 0 && PositiveSize(size)
    ensures r.None? <==> customMode
    ensures r.Some? ==> Contained(r.value, size.width as real, size.height as real)
    ensures r.Some? ==> Centred(r.value, size.width as real, size.height as real)
    ensures r.Some? ==>
      ScaledBy(r.value, imgW as real, imgH as real, FitScale(imgW as real, imgH as real, size.width as real, size.height as real))
  {
    if customMode then None
    else
      FitContainedAndCentred(imgW as real, imgH as real, size.width as real, size.height as real);
      FitPreservesAspect(imgW as real, imgH as real, size.width as real, size.height as real);
      Some(FitRect(imgW as real, imgH as real, size.width as real, size.height as real))
  }

  /** `resizeCustom()`: in custom mode, the image scaled by the fit factor
      and centred on the custom canvas; outside custom mode it returns
      without drawing. A non-positive custom
      side (the form accepts one) yields no rectangle in this model. */
  function ResizeCustom(customMode: bool, imgW: int, imgH: int, customWidth: int, customHeight: int): (r: Option<Rect>)
    requires imgW > 0 && imgH > 0
    ensures r.Some? <==> customMode && customWidth > 0 && customHeight > 0
    ensures r.Some? ==> Contained(r.value, customWidth as real, customHeight as real)
    ensures r.Some? ==> Centred(r.value, customWidth as real, customHeight as real)
    ensures r.Some? ==>
      ScaledBy(r.value, imgW as real, imgH as real, FitScale(imgW as real, imgH as real, customWidth as real, customHeight as real))
  {
    if !customMode || customWidth <= 0 || customHeight <= 0 then None
    else
      FitContainedAndCentred(imgW as real, imgH as real, customWidth as real, customHeight as real);
      FitPreservesAspect(imgW as real, imgH as real, customWidth as real, customHeight as real);
      Some(FitRect(imgW as real, imgH as real, customWidth as real, customHeight as real))
  }

  /** The preset path and the custom path draw the same rectangle for the
      same canvas size. */
  lemma PresetAndCustomAgree(imgW: int, imgH: int, size: SocialMediaDimensions)
    requires imgW > 0 && imgH > 0 && PositiveSize(size)
    ensures ResizeImage(false, imgW, imgH, size) == ResizeCustom(true, imgW, imgH, size.width, size.height)
    ensures ResizeImage(false, imgW, imgH, size).Some?
  {
  }

  // ---------------------------------------------------------------------
  // Download filename

  const CustomPrefix := "resized-custom-"
  const PresetPrefix := "resized-"
  const Extension := ".png"

  /** The name `handleDownload` gives the PNG it saves. */
  function DownloadFilename(customMode: bool, customWidth: int, customHeight: int, presetName: string): (f: string)
    ensures |f| >= |PresetPrefix| + |Extension|
    ensures f[..|PresetPrefix|] == PresetPrefix && f[|f| - |Extension|..] == Extension
  {
    if customMode then CustomPrefix + IntToString(customWidth) + "x" + IntToString(customHeight) + Extension
    else PresetPrefix + ReplaceFirst(Lower(presetName), ' ', '-') + Extension
  }

  /** Reads the canvas size back out of a custom-mode filename. */
  function ParseCustomFilename(f: string): Option<(int, int)>
  {
    if |f| >= |CustomPrefix| + |Extension| && f[..|CustomPrefix|] == CustomPrefix && f[|f| - |Extension|..] == Extension then
      var middle := f[|CustomPrefix|..|f| - |Extension|];
      match IndexOf(middle, 'x')
      case None => None
      case Some(i) =>
        match (ParseInt(middle[..i]), ParseInt(middle[i + 1..]))
        case (Some(w), Some(h)) => Some((w, h))
        case _ => None
    else None
  }

  /** A custom-mode filename names the canvas size unambiguously. */
  lemma CustomFilenameRoundTrip(customWidth: int, customHeight: int, presetName: string)
    ensures ParseCustomFilename(DownloadFilename(true, customWidth, customHeight, presetName)) == Some((customWidth, customHeight))
  {
    var ws, hs := IntToString(customWidth), IntToString(customHeight);
    var middle := ws + "x" + hs;
    var f := DownloadFilename(true, customWidth, customHeight, presetName);
    Regroup(ws, hs);
    assert f == CustomPrefix + middle + Extension;
    Affixes(middle);
    assert f[|CustomPrefix|..|f| - |Extension|] == middle;
    SplitAtX(ws, hs);
    IntToStringRoundTrip(customWidth);
    IntToStringRoundTrip(customHeight);
    assert ParseInt(middle[..|ws|]) == Some(customWidth);
    assert ParseInt(middle[|ws| + 1..]) == Some(customHeight);
  }

  /** The custom filename is prefix, size text and extension. */
  lemma Regroup(ws: string, hs: string)
    ensures CustomPrefix + ws + "x" + hs + Extension == CustomPrefix + (ws + "x" + hs) + Extension
  {
  }

  /** The custom prefix and the extension can be stripped off again. */
  lemma Affixes(middle: string)
    ensures var f := CustomPrefix + middle + Extension;
      |f| >= |CustomPrefix| + |Extension| &&
      f[..|CustomPrefix|] == CustomPrefix && f[|f| - |Extension|..] == Extension &&
      f[|CustomPrefix|..|f| - |Extension|] == middle
  {
  }

  /** Splitting at the first 'x' recovers the two numbers. */
  lemma SplitAtX(ws: string, hs: string)
    requires 'x' !in ws
    ensures var m := ws + "x" + hs;
      IndexOf(m, 'x') == Some(|ws|) && m[..|ws|] == ws && m[|ws| + 1..] == hs
  {
    var m := ws + "x" + hs;
    assert m[..|ws|] == ws && m[|ws|] == 'x';
  }

  /** In preset mode the name between prefix and extension is the lowered
      preset name with its first space, and only that one, turned into '-'. */
  lemma PresetFilenameShape(presetName: string)
    ensures var f := DownloadFilename(false, 0, 0, presetName);
      var stem := f[|PresetPrefix|..|f| - |Extension|];
      |stem| == |presetName| &&
      (forall i :: 0 <= i < |presetName| && (' ' !in presetName || i != IndexOf(presetName, ' ').value) ==>
        stem[i] == LowerChar(presetName[i])) &&
      (' ' in presetName ==> stem[IndexOf(presetName, ' ').value] == '-') &&
      (forall i :: 0 <= i < |stem| ==> !('A' <= stem[i] <= 'Z')) &&
      Count(stem, ' ') == if ' ' in presetName then Count(presetName, ' ') - 1 else 0
  {
    var stem := ReplaceFirst(Lower(presetName), ' ', '-');
    var f := DownloadFilename(false, 0, 0, presetName);
    assert f == PresetPrefix + stem + Extension;
    assert f[|PresetPrefix|..|f| - |Extension|] == stem;
    StemNoUpper(presetName);
    StemSpaces(presetName);
    StemContent(presetName);
  }

  /** The preset stem is the name lowered character by character, except
      at the name's first space, which becomes '-'. */
  lemma StemContent(presetName: string)
    ensures var stem := ReplaceFirst(Lower(presetName), ' ', '-');
      (forall i :: 0 <= i < |presetName| && (' ' !in presetName || i != IndexOf(presetName, ' ').value) ==>
        stem[i] == LowerChar(presetName[i])) &&
      (' ' in presetName ==> stem[IndexOf(presetName, ' ').value] == '-')
  {
    var low := Lower(presetName);
    ReplaceFirstSpec(low, ' ', '-');
    LowerIndexOfSpace(presetName);
  }

  /** The preset stem holds no upper-case letter. */
  lemma StemNoUpper(presetName: string)
    ensures var stem := ReplaceFirst(Lower(presetName), ' ', '-');
      forall i :: 0 <= i < |stem| ==> !('A' <= stem[i] <= 'Z')
  {
    var low := Lower(presetName);
    var stem := ReplaceFirst(low, ' ', '-');
    ReplaceFirstSpec(low, ' ', '-');
    if ' ' in low {
      var i := IndexOf(low, ' ').value;
      forall j | 0 <= j < |stem| ensures !('A' <= stem[j] <= 'Z') {
        if j != i { assert stem[j] == low[j]; }
      }
    }
  }

  /** The preset stem holds one space fewer than the preset name, if any. */
  lemma StemSpaces(presetName: string)
    ensures Count(ReplaceFirst(Lower(presetName), ' ', '-'), ' ') ==
      if ' ' in presetName then Count(presetName, ' ') - 1 else 0
  {
    var low := Lower(presetName);
    LowerKeepsSpaces(presetName);
    ReplaceFirstCount(low, ' ', '-');
    assert ' ' in low <==> ' ' in presetName;
  }

  /** Every preset downloads under a filename without spaces. */
  lemma PresetFilenamesHaveNoSpace(i: int)
    requires 0 <= i < |SocialMediaSizes|
    ensures ' ' !in DownloadFilename(false, 0, 0, SocialMediaSizes[i].name)
  {
    var name := SocialMediaSizes[i].name;
    PresetNamesHaveOneSpace();
    PresetFilenameShape(name);
    var f := DownloadFilename(false, 0, 0, name);
    var stem := f[|PresetPrefix|..|f| - |Extension|];
    assert f == PresetPrefix + stem + Extension;
    assert ' ' !in PresetPrefix && ' ' !in Extension;
  }

  // ---------------------------------------------------------------------
  // Custom size form with aspect-ratio lock

  /** The height that a locked `ratio` pairs with `width`: the nearest
      integer to `width / ratio`. */
  function LockedHeight(width: int, ratio: real): (h: int)
    requires ratio > 0.0
    ensures width as real / ratio - 0.5 < h as real <= width as real / ratio + 0.5
  {
    Round(width as real / ratio)
  }

  /** The width that a locked `ratio` pairs with `height`: the nearest
      integer to `height * ratio`. */
  function LockedWidth(height: int, ratio: real): (w: int)
    requires ratio > 0.0
    ensures height as real * ratio - 0.5 < w as real <= height as real * ratio + 0.5
  {
    Round(height as real * ratio)
  }

  /** The state of the resizer form that its handlers update. */
  class Resizer {
    var selectedSize: SocialMediaDimensions
    var customMode: bool
    var customWidth: int
    var customHeight: int
    var aspectLocked: bool
    var selectedAspectRatio: real

    /** Only presets from the table are ever selected. */
    ghost predicate Valid()
      reads this
    {
      selectedSize in SocialMediaSizes
    }

    /** The initial state: first preset, preset mode, 1200x630 custom size
        locked at 16:9. */
    constructor ()
      ensures Valid()
      ensures selectedSize == SocialMediaSizes[0] && !customMode
      ensures customWidth == 1200 && customHeight == 630
      ensures aspectLocked && selectedAspectRatio == 16.0 / 9.0
    {
      selectedSize := SocialMediaSizes[0];
      customMode := false;
      customWidth := 1200;
      customHeight := 630;
      aspectLocked := true;
      selectedAspectRatio := 16.0 / 9.0;
    }

    /** The filename the download button would use now. */
    function Filename(): (f: string)
      reads this
      ensures selectedSize in SocialMediaSizes && !customMode ==> ' ' !in f
      ensures customMode ==> ParseCustomFilename(f) == Some((customWidth, customHeight))
    {
      FilenameFacts(customMode, customWidth, customHeight, selectedSize);
      DownloadFilename(customMode, customWidth, customHeight, selectedSize.name)
    }

    /** `handleWidthChange`: takes the typed width; with the lock on and a
        ratio chosen, the height follows it. */
    method HandleWidthChange(newWidth: int)
      requires Valid()
      modifies this
      ensures Valid()
      ensures customWidth == newWidth
      ensures customHeight ==
        if old(aspectLocked) && old(selectedAspectRatio) > 0.0 then LockedHeight(newWidth, old(selectedAspectRatio))
        else old(customHeight)
      ensures selectedSize == old(selectedSize) && customMode == old(customMode)
      ensures aspectLocked == old(aspectLocked) && selectedAspectRatio == old(selectedAspectRatio)
    {
      customWidth := newWidth;
      if aspectLocked && selectedAspectRatio > 0.0 {
        customHeight := LockedHeight(newWidth, selectedAspectRatio);
      }
    }

    /** `handleHeightChange`: takes the typed height; with the lock on and a
        ratio chosen, the width follows it. */
    method HandleHeightChange(newHeight: int)
      requires Valid()
      modifies this
      ensures Valid()
      ensures customHeight == newHeight
      ensures customWidth ==
        if old(aspectLocked) && old(selectedAspectRatio) > 0.0 then LockedWidth(newHeight, old(selectedAspectRatio))
        else old(customWidth)
      ensures selectedSize == old(selectedSize) && customMode == old(customMode)
      ensures aspectLocked == old(aspectLocked) && selectedAspectRatio == old(selectedAspectRatio)
    {
      customHeight := newHeight;
      if aspectLocked && selectedAspectRatio > 0.0 {
        customWidth := LockedWidth(newHeight, selectedAspectRatio);
      }
    }

    /** `toggleAspectLock`. */
    method ToggleAspectLock()
      requires Valid()
      modifies this
      ensures Valid()
      ensures aspectLocked == !old(aspectLocked)
      ensures selectedSize == old(selectedSize) && customMode == old(customMode)
      ensures customWidth == old(customWidth) && customHeight == old(customHeight)
      ensures selectedAspectRatio == old(selectedAspectRatio)
    {
      aspectLocked := !aspectLocked;
    }

    /** `handleAspectRatioChange`: records the ratio; with the lock on and a
        real ratio, the height is recomputed from the current width. */
    method HandleAspectRatioChange(ratio: real)
      requires Valid()
      modifies this
      ensures Valid()
      ensures selectedAspectRatio == ratio
      ensures customHeight ==
        if ratio > 0.0 && old(aspectLocked) then LockedHeight(old(customWidth), ratio) else old(customHeight)
      ensures selectedSize == old(selectedSize) && customMode == old(customMode)
      ensures customWidth == old(customWidth) && aspectLocked == old(aspectLocked)
    {
      selectedAspectRatio := ratio;
      if ratio > 0.0 && aspectLocked {
        customHeight := LockedHeight(customWidth, ratio);
      }
    }

    /** `toggleCustomMode(value)`: entering custom mode copies the selected
        preset's size and ratio into the form; leaving it re-selects the
        same preset, which changes no field. */
    method ToggleCustomMode(value: bool)
      requires Valid()
      modifies this
      ensures Valid() && customMode == value
      ensures value ==> customWidth == old(selectedSize).width && customHeight == old(selectedSize).height
      ensures value ==> selectedAspectRatio == old(selectedSize).width as real / old(selectedSize).height as real
      ensures !value ==> customWidth == old(customWidth) && customHeight == old(customHeight)
      ensures !value ==> selectedAspectRatio == old(selectedAspectRatio)
      ensures selectedSize == old(selectedSize) && aspectLocked == old(aspectLocked)
    {
      PresetTable();
      customMode := value;
      if value {
        customWidth := selectedSize.width;
        customHeight := selectedSize.height;
        selectedAspectRatio := selectedSize.width as real / selectedSize.height as real;
      }
    }

    /** The state change of `resizeImage(size)` from a preset button: the
        preset becomes the selection unless custom mode is on. */
    method SelectPreset(size: SocialMediaDimensions)
      requires Valid() && size in SocialMediaSizes
      modifies this
      ensures Valid()
      ensures selectedSize == if old(customMode) then old(selectedSize) else size
      ensures customMode == old(customMode) && aspectLocked == old(aspectLocked)
      ensures customWidth == old(customWidth) && customHeight == old(customHeight)
      ensures selectedAspectRatio == old(selectedAspectRatio)
    {
      if !customMode {
        selectedSize := size;
      }
    }
  }

  /** Whenever the lock set the height, the form's width:height is the
      ratio up to rounding: `height * ratio` misses `width` by at most half
      the ratio. */
  lemma LockedPairKeepsRatio(width: int, ratio: real)
    requires ratio > 0.0
    ensures var h := LockedHeight(width, ratio);
      width as real - ratio / 2.0 < h as real * ratio <= width as real + ratio / 2.0
  {
    var h := LockedHeight(width, ratio);
    var e := width as real / ratio;
    assert e * ratio == width as real;
    MulPositive(h as real - (e - 0.5), ratio);
    assert h as real * ratio - (width as real - ratio / 2.0) == (h as real - (e - 0.5)) * ratio;
    assert (width as real + ratio / 2.0) - h as real * ratio == ((e + 0.5) - h as real) * ratio;
    if h as real < e + 0.5 {
      MulPositive((e + 0.5) - h as real, ratio);
    } else {
      assert (e + 0.5) - h as real == 0.0;
    }
  }

  /** A pair that already has the ratio exactly is left alone by the lock:
      each side, typed in, gives back the other. */
  lemma LockedExactPair(width: int, height: int, ratio: real)
    requires ratio > 0.0 && width as real == height as real * ratio
    ensures LockedHeight(width, ratio) == height && LockedWidth(height, ratio) == width
  {
    assert width as real / ratio == height as real;
    RoundOfInt(height);
    RoundOfInt(width);
  }

  /** The first preset downloads as `resized-instagram-post.png`. */
  lemma InstagramPostFilename()
    ensures DownloadFilename(false, 0, 0, "Instagram Post") == "resized-instagram-post.png"
  {
    LowerInstagramPost();
    ReplaceInstagramPost();
    var stem := ReplaceFirst(Lower("Instagram Post"), ' ', '-');
    assert stem == "instagram-post";
    assert DownloadFilename(false, 0, 0, "Instagram Post") == PresetPrefix + stem + Extension;
    PresetFilenameLiteral();
  }

  lemma PresetFilenameLiteral()
    ensures PresetPrefix + "instagram-post" + Extension == "resized-instagram-post.png"
  {
  }

  lemma ReplaceInstagramPost()
    ensures ReplaceFirst("instagram post", ' ', '-') == "instagram-post"
  {
    assert "instagram post" == "instagram" + " " + "post";
    ReplaceJoin("instagram", "post", '-');
    assert "instagram" + ['-'] + "post" == "instagram-post";
  }

  lemma LowerInstagramPost()
    ensures Lower("Instagram Post") == "instagram post"
  {
    var low := Lower("Instagram Post");
    assert low[0] == LowerChar('I') == 'i';
    assert low[9] == ' ' && low[10] == LowerChar('P') == 'p';
    forall i | 0 <= i < 14 ensures low[i] == "instagram post"[i] {
      if i != 0 && i != 10 { assert !('A' <= "Instagram Post"[i] <= 'Z'); }
    }
  }

  /** Typing a wider width with the lock on never gives a lower height. */
  lemma LockedHeightMonotone(w1: int, w2: int, ratio: real)
    requires ratio > 0.0 && w1 <= w2
    ensures LockedHeight(w1, ratio) <= LockedHeight(w2, ratio)
  {
    assert w1 as real / ratio <= w2 as real / ratio;
    RoundMonotone(w1 as real / ratio, w2 as real / ratio);
  }

  /** What the filename rule guarantees in either mode. */
  lemma FilenameFacts(customMode: bool, customWidth: int, customHeight: int, size: SocialMediaDimensions)
    ensures size in SocialMediaSizes && !customMode ==> ' ' !in DownloadFilename(customMode, customWidth, customHeight, size.name)
    ensures customMode ==>
      ParseCustomFilename(DownloadFilename(customMode, customWidth, customHeight, size.name)) == Some((customWidth, customHeight))
  {
    if size in SocialMediaSizes && !customMode {
      var i :| 0 <= i < |SocialMediaSizes| && SocialMediaSizes[i] == size;
      PresetFilenamesHaveNoSpace(i);
    }
    CustomFilenameRoundTrip(customWidth, customHeight, size.name);
  }
}
