# Image resizer and editor: a Dafny model

This project models the computational core of a browser-based image tool.
Users can fit a photo onto a social-media canvas, shrink an image file to a
byte budget, and rotate, flip and adjust a photo. Every piece of the model
is checked by the Dafny verifier.

- **Preset table** (`Types`, after `src/types.ts`): six canvas sizes. Each is
  positive and has a distinct two-word name.
- **Social-media resizer** (`ImageResizer`, after
  `src/components/ImageResizer.tsx`):
  - the fit-and-centre rectangle that `resizeImage` and `resizeCustom` draw
    the photo into;
  - the download filename;
  - the custom-size form as a class `Resizer` whose handlers update its
    fields, including the aspect-ratio lock.

  Proved: the fitted rectangle keeps the photo's aspect ratio, lies inside
  the canvas, is centred, and is the largest uniform scaling that fits. A
  custom filename names its size unambiguously (round trip). No preset
  filename contains a space. A locked pair misses the ratio by at most half
  a pixel after rounding.
- **File-size resizer** (`FileSizeResizer`, after
  `src/components/FileSizeResizer.tsx`):
  - converting the typed budget to bytes;
  - the bounded search loop of `processImage`. After a blob over the
    budget it moves the encode quality to the midpoint of the interval
    below it (a quality that does not rise) and shrinks the image on the
    next attempt; after one under the budget it moves to the midpoint of
    the interval above it (a quality that does not fall).

  The loop is the method `ProcessImage`, proved equal to the specification
  function `Run`. About `Run` the model proves:
  - it stops within ten attempts;
  - every attempted quality and the final interval stay in [0.1, 1.0];
  - after every adjustment the quality is the midpoint of a search interval
    nested in the previous one, and after every adjustment but the first
    that interval is half as wide as before (the first can leave it at
    [0.1, 1.0], when the starting quality is at an end of it);
  - width and height never grow;
  - every attempt records what the encoder returned for its size and
    quality;
  - it stops early only on convergence or a null blob;
  - it publishes what the encoder returned on the last attempt.
- **Editor** (`ImageEditor`, after `src/components/ImageEditor.tsx`):
  - rotation by quarter turns (closed over {0, 90, 180, 270}; the two
    directions are inverses; four turns restore the angle);
  - the canvas size chosen for the angle (the image's own sides, swapped
    exactly at 90 and 270, so the area is unchanged);
  - a class `Editor` whose handlers toggle flips, reset edits and set the
    sliders, each changing only its own field.

JavaScript semantics are written out:
- `Math.round` is the floor of x + 0.5, so halves round up.
- `String.replace` with a string pattern replaces only the first occurrence.
- `%` is applied only to non-negative operands, where it agrees with Dafny's.
- Integers below 10^21 that JavaScript holds exactly (at most 2^53 in
  magnitude) are rendered in template literals as their decimal digits.
- `Math.max(1, parseInt(v) || 1)` maps NaN (modelled as `None`) and 0 to 1.

The browser's canvas encoder is a parameter: a function from (width, height,
quality) to a blob size, or `None` for a null blob. The scale factor
`Math.sqrt(target / size)` is a parameter too. The model assumes only that it
lies strictly between 0 and 1 when the size is over the target.

Two behaviours of the code are worth stating plainly:
- `Math.floor(width * scaleFactor)` has no lower clamp, so a shrunken side
  can reach 0 px (`FileSizeResizer.Shrink`).
- `Math.round` rounds halves up, towards +infinity, also for negative values
  (`Common.Round`).

## Model

| member | source | states |
|---|---|---|
| Common.Round | src/components/ImageResizer.tsx:78 | `Math.round(x)` lies within half a unit of x: x - 0.5 < r <= x + 0.5 |
| Common.RoundUnique | src/components/ImageResizer.tsx:78 | the rounded value is the only integer in (x - 0.5, x + 0.5] |
| Common.RoundOfInt | src/components/ImageResizer.tsx:88 | rounding an integer-valued number returns it unchanged |
| Common.RoundMonotone | src/components/ImageResizer.tsx:78 | rounding preserves order |
| Text.ReplaceFirst | src/components/ImageResizer.tsx:66 | `replace(' ', '-')` keeps the string's length |
| Text.ReplaceFirstSpec | src/components/ImageResizer.tsx:66 | only the first occurrence is replaced and the rest is untouched; with no occurrence the string is unchanged |
| Text.ReplaceFirstCount | src/components/ImageResizer.tsx:66 | the replacement removes exactly one occurrence of the pattern character and adds exactly one of the new character when there is one, and changes neither count otherwise |
| Text.LowerChar | src/components/ImageResizer.tsx:66 | `toLowerCase` turns each upper-case ASCII letter into its own lower-case letter and changes nothing else |
| Text.Lower | src/components/ImageResizer.tsx:66 | `toLowerCase` lowers every character in place and keeps the length |
| Text.LowerKeepsSpaces | src/components/ImageResizer.tsx:66 | lowering neither adds nor removes spaces |
| Text.ReplaceJoin | src/components/ImageResizer.tsx:66 | in two words joined by a space, with no space in the first, the replacement joins them with the new character instead |
| Text.IntToString | src/components/ImageResizer.tsx:65 | a number in the template literal renders as non-empty text with no 'x' and no space |
| Text.IntToStringRoundTrip | src/components/ImageResizer.tsx:65 | parsing the rendered integer gives back the integer |
| Types.PresetTable | src/types.ts:8-15 | there are six presets; each has positive width and height; no two share a name |
| Types.PresetNamesHaveOneSpace | src/types.ts:9-14 | every preset name holds exactly one space |
| Types.DefaultPreset | src/components/ImageResizer.tsx:29 | the initial selection is the 1080x1080 Instagram post |
| ImageResizer.PresetIconsMapped | src/components/ImageResizer.tsx:10-16 | every preset's icon key has an entry in the icon table |
| ImageResizer.AspectRatioButtons | src/components/ImageResizer.tsx:19-26 | the ratio buttons offer a positive ratio except "Custom", which offers 0, and "16:9" offers 16 / 9 |
| ImageResizer.FitRect | src/components/ImageResizer.tsx:146-165 | an image relatively wider than the canvas spans its width at offset x 0; otherwise (equal ratios included) it spans its height at offset y 0 |
| ImageResizer.FitScale | src/components/ImageResizer.tsx:153-165 | the fit factor is positive, makes both sides fit, and makes one of them touch the canvas edge |
| ImageResizer.FitPreservesAspect | src/components/ImageResizer.tsx:153-165 | the drawn rectangle is the image scaled by one factor on both axes, so the aspect ratio is kept |
| ImageResizer.RatioOrder | src/components/ImageResizer.tsx:147-153 | comparing `imgRatio > targetRatio` is comparing cross products |
| ImageResizer.FitContainedAndCentred | src/components/ImageResizer.tsx:146-165 | the rectangle lies inside the canvas, has equal opposite margins, is non-empty, and fills one axis |
| ImageResizer.FitIsLargest | src/components/ImageResizer.tsx:150-165 | no larger uniform scaling of the image fits the canvas |
| ImageResizer.FitSameRatioFills | src/components/ImageResizer.tsx:159-165 | with equal ratios the image fills the canvas exactly, with zero offsets |
| ImageResizer.FitLandscapeOnSquare | src/components/ImageResizer.tsx:153-158 | a 1920x1080 photo on the 1080x1080 canvas is drawn 1080x607.5 at y 236.25 |
| ImageResizer.FitOnLinkedIn | src/components/ImageResizer.tsx:159-165 | an 800x600 photo on the 1200x627 canvas is drawn 836x627 at x 182 |
| ImageResizer.ResizeImage | src/components/ImageResizer.tsx:123-165 | in custom mode nothing is drawn; otherwise the drawn rectangle is the image scaled by the fit factor, centred within the preset's canvas |
| ImageResizer.ResizeCustom | src/components/ImageResizer.tsx:175-216 | a rectangle is drawn exactly in custom mode (with positive sides); it is the image scaled by the fit factor, centred within the custom canvas |
| ImageResizer.PresetAndCustomAgree | src/components/ImageResizer.tsx:197-216 | the custom path draws the same rectangle as the preset path for the same canvas size |
| ImageResizer.DownloadFilename | src/components/ImageResizer.tsx:64-66 | every download name starts with "resized-" and ends with ".png" |
| ImageResizer.CustomFilenameRoundTrip | src/components/ImageResizer.tsx:65 | the custom size can be read back from a custom-mode filename |
| ImageResizer.PresetFilenameShape | src/components/ImageResizer.tsx:66 | a preset filename's stem has the name's length; each character is the name's own character lowered, except the name's first space, which becomes '-'; it holds no capital letter and one space fewer than the name when the name had one |
| ImageResizer.PresetFilenamesHaveNoSpace | src/components/ImageResizer.tsx:66 | no preset downloads under a name containing a space |
| ImageResizer.InstagramPostFilename | src/components/ImageResizer.tsx:66 | the first preset downloads as "resized-instagram-post.png" |
| ImageResizer.FilenameFacts | src/components/ImageResizer.tsx:64-66 | in preset mode with a table preset the name has no space; in custom mode it round-trips the size |
| ImageResizer.LockedHeight | src/components/ImageResizer.tsx:78 | the height the lock sets lies within half a pixel of width / ratio |
| ImageResizer.LockedWidth | src/components/ImageResizer.tsx:88 | the width the lock sets lies within half a pixel of height * ratio |
| ImageResizer.LockedPairKeepsRatio | src/components/ImageResizer.tsx:77-79 | after the lock sets the height, height * ratio misses the width by at most half the ratio |
| ImageResizer.LockedHeightMonotone | src/components/ImageResizer.tsx:73-80 | with the lock on, a wider typed width never gives a lower height |
| ImageResizer.LockedExactPair | src/components/ImageResizer.tsx:73-90 | a pair already exactly at the ratio is a fixed point of both handlers |
| ImageResizer.Resizer.constructor | src/components/ImageResizer.tsx:29-38 | initial state: first preset, preset mode, 1200x630, locked at 16:9 |
| ImageResizer.Resizer.Filename | src/components/ImageResizer.tsx:64-66 | the current download name has no space in preset mode and names the size in custom mode |
| ImageResizer.Resizer.HandleWidthChange | src/components/ImageResizer.tsx:73-80 | the width is the typed value; when locked with a ratio the height becomes the rounded width / ratio, otherwise it is kept; nothing else changes |
| ImageResizer.Resizer.HandleHeightChange | src/components/ImageResizer.tsx:83-90 | the height is the typed value; when locked with a ratio the width becomes the rounded height * ratio, otherwise it is kept; nothing else changes |
| ImageResizer.Resizer.ToggleAspectLock | src/components/ImageResizer.tsx:93-95 | only the lock flips |
| ImageResizer.Resizer.HandleAspectRatioChange | src/components/ImageResizer.tsx:98-105 | the ratio is recorded; with the lock on and a positive ratio the height is recomputed from the current width |
| ImageResizer.Resizer.ToggleCustomMode | src/components/ImageResizer.tsx:108-121 | entering custom mode copies the preset's size and ratio; leaving it changes only the mode |
| ImageResizer.Resizer.SelectPreset | src/components/ImageResizer.tsx:123-126 | a preset click selects the preset unless custom mode is on; the selection stays in the table |
| FileSizeResizer.ClampTargetSize | src/components/FileSizeResizer.tsx:283 | the stored target is the typed integer when it is at least 1, and 1 otherwise (NaN included) |
| FileSizeResizer.TargetSizeInBytes | src/components/FileSizeResizer.tsx:56-58 | the budget is exactly the target times the unit's byte count, and at least 1024 for a target of at least 1 |
| FileSizeResizer.FormatFileSize | src/components/FileSizeResizer.tsx:46-47 | a zero size reads "0 Bytes"; every other size goes to the numeric rendering |
| FileSizeResizer.Within | src/components/FileSizeResizer.tsx:127-129 | the tolerance test holds exactly when ten times the distance from the target is below the target |
| FileSizeResizer.Shrink | src/components/FileSizeResizer.tsx:100-104 | with a factor in (0, 1), shrinking a side never grows it, strictly shrinks a positive one, and never goes below 0 |
| FileSizeResizer.Step | src/components/FileSizeResizer.tsx:96-141 | a pass makes one attempt, at the quality it began with, records what the encoder returned, and breaks exactly on a null or a blob within tolerance |
| FileSizeResizer.Run | src/components/FileSizeResizer.tsx:96-142 | the loop never lowers the attempt count and only appends attempts |
| FileSizeResizer.ProcessImage | src/components/FileSizeResizer.tsx:60-154 | the loop publishes the blob that the specification function `Run` leaves from the initial state |
| FileSizeResizer.InitialRunning | src/components/FileSizeResizer.tsx:86-96 | the loop invariant holds on entry |
| FileSizeResizer.StepTrace | src/components/FileSizeResizer.tsx:96-125 | each pass appends exactly one attempt and keeps the facts about all attempts, including that each records the encoder's result |
| FileSizeResizer.StepInterval | src/components/FileSizeResizer.tsx:134-141 | when the loop goes on, the new quality is the midpoint of a nested sub-interval, half as wide as before after the first adjustment |
| FileSizeResizer.StepKeeps | src/components/FileSizeResizer.tsx:96-142 | each pass keeps the invariant, or establishes the exit facts when it breaks |
| FileSizeResizer.RunDone | src/components/FileSizeResizer.tsx:96-142 | the loop run from any state meeting the invariant ends meeting the exit facts |
| FileSizeResizer.SearchDone | src/components/FileSizeResizer.tsx:86-142 | the search from its initial state ends meeting the exit facts |
| FileSizeResizer.SearchAttemptsBounded | src/components/FileSizeResizer.tsx:93-97 | the search ends after one to ten encode attempts |
| FileSizeResizer.SearchFirstAttempt | src/components/FileSizeResizer.tsx:86-121 | the first attempt encodes at the image's own size and the requested quality |
| FileSizeResizer.SearchDimensionsNeverGrow | src/components/FileSizeResizer.tsx:99-121 | every attempt's size is what the encoder returned for it; sides stay between 0 and the original size, never grow between attempts, and change only after an attempt whose blob was over budget |
| FileSizeResizer.SearchQualityInRange | src/components/FileSizeResizer.tsx:91-92 | every attempted quality and the final interval stay within [0.1, 1.0] |
| FileSizeResizer.SearchQualityDirection | src/components/FileSizeResizer.tsx:115-141 | every attempt's size is what the encoder returned for it; after an over-budget blob the quality does not rise, after an under-budget one it does not fall |
| FileSizeResizer.SearchStopsOnlyWhenDone | src/components/FileSizeResizer.tsx:115-132 | every attempt's size is what the encoder returned for it; every attempt before the last produced a blob outside tolerance; stopping before ten attempts means null or within tolerance |
| FileSizeResizer.SearchPublishesLastAttempt | src/components/FileSizeResizer.tsx:144-148 | the published blob is what the encoder returned for the last attempt's size and quality |
| FileSizeResizer.SearchNeverCloseUsesAllAttempts | src/components/FileSizeResizer.tsx:93-142 | an encoder that never returns null or a blob within tolerance makes the loop use all ten attempts and publish the last blob |
| FileSizeResizer.OverBudgetPublishesLast | src/components/FileSizeResizer.tsx:93-148 | an encoder that always returns a megabyte against a 1 KB budget exhausts the ten attempts and the megabyte blob is published |
| FileSizeResizer.SearchDiscardsEarlierCandidate | src/components/FileSizeResizer.tsx:115-123 | for a 10000x1 image and a 1 KB budget, a 40000-byte blob is produced but nothing is published |
| FileSizeResizer.LastCandidateNone | src/components/FileSizeResizer.tsx:144-148 | the last blob produced by any attempt is missing exactly when no attempt produced one |
| FileSizeResizer.LastCandidateIsLast | src/components/FileSizeResizer.tsx:144-148 | otherwise it is the blob of an attempt after which no attempt produced one |
| FileSizeResizer.PublishedUnlessFirstEncodeFails | src/components/FileSizeResizer.tsx:144-148 | keeping the last produced blob publishes nothing only when the first encode fails, and agrees with the loop whenever the loop publishes |
| FileSizeResizer.PublishedKeepsCandidate | src/components/FileSizeResizer.tsx:144-148 | on the 10000x1 example, keeping the last produced blob publishes the 40000-byte blob |
| ImageEditor.Clockwise | src/components/ImageEditor.tsx:203-205 | a clockwise turn maps a quarter-turn angle to a quarter-turn angle |
| ImageEditor.CounterClockwise | src/components/ImageEditor.tsx:207-209 | a counter-clockwise turn maps a quarter-turn angle to a quarter-turn angle |
| ImageEditor.TurnsCancel | src/components/ImageEditor.tsx:203-209 | a turn each way, in either order, restores the angle |
| ImageEditor.FourTurnsRestore | src/components/ImageEditor.tsx:203-205 | four clockwise turns restore the angle |
| ImageEditor.FewerTurnsMove | src/components/ImageEditor.tsx:203-205 | one, two or three clockwise turns each change the angle |
| ImageEditor.CanvasSize | src/components/ImageEditor.tsx:87-89 | the canvas has the image's two sides, in one order or the other, and so the image's area |
| ImageEditor.CanvasSwapsExactly | src/components/ImageEditor.tsx:87-89 | for a non-square image the sides are swapped exactly at 90 and 270, and at 0 the canvas is the image's own size |
| ImageEditor.TurnSwapsCanvas | src/components/ImageEditor.tsx:87-89 | each quarter turn either way swaps the canvas's width and height |
| ImageEditor.Editor.constructor | src/components/ImageEditor.tsx:38-45 | the initial state is the pristine one: angle 0, no flips, sliders at 100, first filter, panel hidden |
| ImageEditor.Editor.Canvas | src/components/ImageEditor.tsx:87-89 | the canvas for the current angle has the image's sides and area, swapped exactly when the angle is 90 or 270 |
| ImageEditor.Editor.ResetEdits | src/components/ImageEditor.tsx:61-70 | every edit field returns to its initial value |
| ImageEditor.Editor.RotateClockwise | src/components/ImageEditor.tsx:203-205 | the angle turns clockwise; every other field is kept |
| ImageEditor.Editor.RotateCounterClockwise | src/components/ImageEditor.tsx:207-209 | the angle turns counter-clockwise; every other field is kept |
| ImageEditor.Editor.ToggleHorizontalFlip | src/components/ImageEditor.tsx:211-213 | only the horizontal flip changes |
| ImageEditor.Editor.ToggleVerticalFlip | src/components/ImageEditor.tsx:215-217 | only the vertical flip changes |
| ImageEditor.Editor.ToggleAdjustments | src/components/ImageEditor.tsx:219-221 | only the panel visibility changes |
| ImageEditor.Editor.SetAdjustments | src/components/ImageEditor.tsx:350-395 | the sliders take the given in-range values; nothing else changes |
| ImageEditor.Editor.SelectFilter | src/components/ImageEditor.tsx:294-298 | the clicked filter becomes the selection; nothing else changes |
| ImageEditor.FlipTwiceRestores | src/components/ImageEditor.tsx:211-217 | toggling each flip twice restores the whole editor state |

## Left out

- Canvas drawing, `toDataURL`, `toBlob`'s pixels, object URLs, link clicks and image loading are not modelled. They are browser I/O. The encoder enters only as a parameter.
- React effects and re-render scheduling are not modelled. Each handler's state updates are treated as applied at once.
- The background-colour fill, the options panel toggle and the colour list of the resizer are not modelled: they carry no logic.
- The editor's CSS filter strings and the drawing transforms in `applyEdits` (translate, rotate, scale) are not modelled. Only the canvas size chosen for the angle is.
- `handleDownload` in the editor uses a fixed name and is not modelled.
- Floating-point rounding is not modelled. Ratios, fit rectangles and qualities are exact reals.
- `formatFileSize` for non-zero sizes is not modelled (logarithms and `toFixed`). `FileSizeResizer.FormatFileSize` states only the zero case.
- `Math.sqrt(target / size)` is not modelled. It is a parameter constrained to (0, 1) when the size is over the target.
- `ImageResizer.Resizer.HandleWidthChange`, `ImageResizer.Resizer.HandleHeightChange`: `parseInt` of an empty field (NaN) is not modelled; the typed value is an integer.
- `ImageResizer.ResizeCustom`: a custom side of 0 or less draws nothing in the model. In the browser the canvas would be empty or reset.
- `ImageResizer.Resizer.ToggleCustomMode`: leaving custom mode calls `resizeImage` with the mode value from before the update, which returns early. Only the state change (the mode) is modelled, not the redraw that is skipped.
- `Text.IntToString`: every integer is rendered as its exact decimal digits. JavaScript renders a number of 10^21 or more in exponent form ("1e+22") and loses precision above 2^53, and the size inputs accept such values; those renderings are not modelled.
- `Text.Lower`: only ASCII letters are lowered. The preset names are ASCII.
- `FileSizeResizer.ProcessImage`: the early returns before the loop (no file, no canvas, no context) and the `try`/`catch` are not modelled. The image's width and height are parameters.

## Findings

| source | as written | input that shows it | evidently intended | confidence | as-written member | corrected member |
|---|---|---|---|---|---|---|
| src/components/FileSizeResizer.tsx:115-123 | each attempt overwrites `resultBlob`, so a null from `toBlob` after a successful attempt breaks the loop with `resultBlob` null, and nothing is published (lines 144-148) | a 10000x1 image with a 1 KB target at quality 90: the first attempt gives a 40000-byte blob; the shrink floors the height to 0; the encoder returns null for the empty canvas | publish the last blob produced; fail only when the first encode fails | not executed | FileSizeResizer.SearchDiscardsEarlierCandidate | FileSizeResizer.PublishedUnlessFirstEncodeFails |
