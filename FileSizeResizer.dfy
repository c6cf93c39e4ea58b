/** The file-size resizer (src/components/FileSizeResizer.tsx): converting
    the requested budget to bytes, and the bounded search over encode
    quality and image size that tries to land within 10% of it.

    The browser's canvas encoder is a parameter: a total function from
    (width, height, quality) to the byte size of the blob it produces, or
    None where `toBlob` hands back null. `Math.sqrt(target / size)` is a
    parameter too, assumed only to lie strictly between 0 and 1 whenever the
    size is over the target. */
module FileSizeResizer {
  import opened Common

  const MaxAttempts: nat := 10
  const InitialMinQuality: real := 0.1
  const InitialMaxQuality: real := 1.0
  /** Relative distance from the target that counts as close enough. */
  const Tolerance: real := 0.1

  datatype SizeUnit = KB | MB

  /** The value the target-size input stores for what was typed:
      `Math.max(1, parseInt(v) || 1)`, where None stands for NaN. */
  function ClampTargetSize(parsed: Option<int>): (t: int)
    ensures t >= 1
    ensures parsed.Some? && parsed.value >= 1 ==> t == parsed.value
    ensures parsed.None? || parsed.value < 1 ==> t == 1
  {
    var n := match parsed case None => 1 case Some(v) => if v == 0 then 1 else v;
    if n > 1 then n else 1
  }

  function UnitBytes(unit: SizeUnit): (b: nat)
  {
    match unit
    case KB => 1024
    case MB => 1024 * 1024
  }

  /** `calculateTargetSizeInBytes`: the target is a whole number of units. */
  function TargetSizeInBytes(targetSize: int, unit: SizeUnit): (b: int)
    ensures b % UnitBytes(unit) == 0 && b / UnitBytes(unit) == targetSize
    ensures targetSize >= 1 ==> b >= 1024
  {
    match unit
    case KB => targetSize * 1024
    case MB => targetSize * 1024 * 1024
  }

  /** What `formatFileSize` yields: an exact text for an empty file; for any
      other size the floating-point rendering, which is not modelled. */
  datatype SizeText = Exact(text: string) | Rendered(bytes: nat)

  function FormatFileSize(bytes: nat): (r: SizeText)
    ensures r.Exact? <==> bytes == 0
    ensures r.Exact? ==> r.text == "0 Bytes"
    ensures r.Rendered? ==> r.bytes == bytes
  {
    if bytes == 0 then Exact("0 Bytes") else Rendered(bytes)
  }

  // ---------------------------------------------------------------------
  // The search

  /** The canvas encoder: (width, height, quality) to a blob size or null. */
  type Encoder = (int, int, real) -> Option<nat>

  /** `Math.sqrt(target / size)` as a function of (target, size). */
  type ScaleFn = (int, int) -> real

  /** The scale factor shrinks whenever the last result was over budget. */
  ghost predicate Shrinks(scale: ScaleFn) {
    forall target: int, size: int :: 0 < target < size ==> 0.0 < scale(target, size) < 1.0
  }

  /** One round of the loop: the size it drew at, the quality it asked
      for, and what the encoder returned. */
  datatype Attempt = Attempt(width: int, height: int, quality: real, size: Option<nat>)

  /** The loop's variables, plus the attempts made so far. */
  datatype Search = Search(
    width: int, height: int,
    quality: real, minQuality: real, maxQuality: real,
    resultSize: nat, attempts: nat, resultBlob: Option<nat>,
    trace: seq<Attempt>)

  /** The variables as they stand before the first round. */
  function Initial(imgW: nat, imgH: nat, quality: real): Search
  {
    Search(imgW, imgH, quality, InitialMinQuality, InitialMaxQuality, 0, 0, None, [])
  }

  /** The early-exit test `|size - target| / target < 0.1`; it holds
      exactly when ten times the distance from the target is below it. */
  function Within(size: nat, target: int): (w: bool)
    requires target > 0
    ensures w <==> 10 * (if size >= target then size - target else target - size) < target
  {
    var diff := if size >= target then size - target else target - size;
    DivBelow(diff as real, target as real, Tolerance);
    assert (10 * diff) as real == 10.0 * diff as real;
    diff as real / target as real < Tolerance
  }

  /** Dividing by a positive `t` stays below `c` exactly when the dividend
      stays below `c * t`. */
  lemma DivBelow(d: real, t: real, c: real)
    requires t > 0.0
    ensures d / t < c <==> d < c * t
  {
    var q := d / t;
    assert q * t == d;
    assert (q - c) * t == q * t - c * t;
    MulSign(q - c, t);
  }

  /** A product with a positive factor has the sign of the other factor. */
  lemma MulSign(a: real, t: real)
    requires t > 0.0
    ensures a * t < 0.0 <==> a < 0.0
  {
    if a < 0.0 {
      MulPositive(-a, t);
      assert (-a) * t == -(a * t);
    } else if a > 0.0 {
      MulPositive(a, t);
    }
  }

  /** `Math.floor(side * scaleFactor)`. With a factor in (0, 1) it never
      grows a side, strictly shrinks a positive one, and can reach 0 but
      not go below. */
  function Shrink(side: int, factor: real): (r: int)
    ensures side >= 0 && 0.0 < factor < 1.0 ==> 0 <= r <= side && (side > 0 ==> r < side)
  {
    if side >= 0 && 0.0 < factor < 1.0 then
      ScaledFloor(side as real * factor, side as real, factor, side);
      (side as real * factor).Floor
    else (side as real * factor).Floor
  }

  /** One pass through the loop body; the flag says whether it breaks.
      Each pass makes exactly one encode attempt, at the quality the pass
      began with, records it, and breaks exactly when the encoder returned
      null or a blob within the tolerance. */
  function Step(encode: Encoder, scale: ScaleFn, target: int, s: Search): (r: (Search, bool))
    requires target > 0
    ensures r.0.attempts == s.attempts + 1
    ensures r.0.resultBlob == encode(r.0.width, r.0.height, s.quality)
    ensures r.0.trace == s.trace + [Attempt(r.0.width, r.0.height, s.quality, r.0.resultBlob)]
    ensures r.1 <==> r.0.resultBlob.None? || Within(r.0.resultBlob.value, target)
  {
    var attempts := s.attempts + 1;
    var shrink := attempts > 1 && s.resultSize > target;
    var width := if shrink then Shrink(s.width, scale(target, s.resultSize)) else s.width;
    var height := if shrink then Shrink(s.height, scale(target, s.resultSize)) else s.height;
    var blob := encode(width, height, s.quality);
    var trace := s.trace + [Attempt(width, height, s.quality, blob)];
    var drawn := s.(width := width, height := height, attempts := attempts, resultBlob := blob, trace := trace);
    match blob
    case None => (drawn, true)
    case Some(size) =>
      if Within(size, target) then (drawn.(resultSize := size), true)
      else if size > target then
        (drawn.(resultSize := size, maxQuality := s.quality, quality := (s.minQuality + s.quality) / 2.0), false)
      else
        (drawn.(resultSize := size, minQuality := s.quality, quality := (s.quality + s.maxQuality) / 2.0), false)
  }

  /** `while (attempts < maxAttempts)`: the state the loop leaves behind.
      The loop only appends attempts to the ones already made. */
  function Run(encode: Encoder, scale: ScaleFn, target: int, s: Search): (r: Search)
    requires target > 0
    ensures s.attempts <= r.attempts
    ensures |s.trace| <= |r.trace| && r.trace[..|s.trace|] == s.trace
    decreases MaxAttempts - s.attempts
  {
    if s.attempts >= MaxAttempts then s
    else
      var (next, stop) := Step(encode, scale, target, s);
      if stop then next else Run(encode, scale, target, next)
  }

  /** `processImage`, from the computed budget to the blob it publishes
      (None: nothing is published). */
  method ProcessImage(encode: Encoder, scale: ScaleFn, imgW: nat, imgH: nat, targetSize: int, unit: SizeUnit, quality: int)
    returns (published: Option<nat>)
    requires targetSize >= 1 && 10 <= quality <= 100
    ensures published == Run(encode, scale, TargetSizeInBytes(targetSize, unit), Initial(imgW, imgH, quality as real / 100.0)).resultBlob
  {
    var targetSizeInBytes := TargetSizeInBytes(targetSize, unit);
    var currentQuality := quality as real / 100.0;
    var resultBlob: Option<nat> := None;
    var resultSize: nat := 0;
    var width: int := imgW;
    var height: int := imgH;
    var minQuality := InitialMinQuality;
    var maxQuality := InitialMaxQuality;
    var attempts: nat := 0;
    ghost var trace: seq<Attempt> := [];
    ghost var final := Run(encode, scale, targetSizeInBytes, Initial(imgW, imgH, currentQuality));
    while attempts < MaxAttempts
      invariant Run(encode, scale, targetSizeInBytes,
        Search(width, height, currentQuality, minQuality, maxQuality, resultSize, attempts, resultBlob, trace)) == final
      decreases MaxAttempts - attempts
    {
      attempts := attempts + 1;
      if attempts > 1 && resultSize > targetSizeInBytes {
        var scaleFactor := scale(targetSizeInBytes, resultSize);
        width := Shrink(width, scaleFactor);
        height := Shrink(height, scaleFactor);
      }
      resultBlob := encode(width, height, currentQuality);
      trace := trace + [Attempt(width, height, currentQuality, resultBlob)];
      if resultBlob.None? {
        break;
      }
      resultSize := resultBlob.value;
      if Within(resultSize, targetSizeInBytes) {
        break;
      }
      if resultSize > targetSizeInBytes {
        maxQuality := currentQuality;
        currentQuality := (minQuality + currentQuality) / 2.0;
      } else {
        minQuality := currentQuality;
        currentQuality := (currentQuality + maxQuality) / 2.0;
      }
    }
    published := resultBlob;
  }

  // ---------------------------------------------------------------------
  // What the search guarantees

  /** The width of the initial quality interval after `n` halvings. */
  function Span(n: nat): (w: real)
    ensures 0.0 < w <= InitialMaxQuality - InitialMinQuality
  {
    if n == 0 then InitialMaxQuality - InitialMinQuality else Span(n - 1) / 2.0
  }

  function Last<T>(s: seq<T>): T
    requires |s| > 0
  {
    s[|s| - 1]
  }

  /** How one attempt leads to the next: the earlier one produced a blob;
      if it was over budget the size may only shrink (strictly, unless
      already 0) and the quality may only drop, otherwise the size is kept
      and the quality may only rise. */
  ghost predicate Follows(target: int, a: Attempt, b: Attempt) {
    a.size.Some? &&
    if a.size.value > target then
      0 <= b.width <= a.width && 0 <= b.height <= a.height &&
      (a.width > 0 ==> b.width < a.width) && (a.height > 0 ==> b.height < a.height) &&
      b.quality <= a.quality
    else
      b.width == a.width && b.height == a.height && b.quality >= a.quality
  }

  /** Every recorded result is what the encoder returns for that
      attempt's size and quality. */
  ghost predicate Encoded(encode: Encoder, tr: seq<Attempt>) {
    forall i :: 0 <= i < |tr| ==> tr[i].size == encode(tr[i].width, tr[i].height, tr[i].quality)
  }

  /** Facts about every attempt of a search of an `imgW` x `imgH` image. */
  ghost predicate TraceOk(encode: Encoder, target: int, imgW: nat, imgH: nat, tr: seq<Attempt>)
    requires target > 0
  {
    Encoded(encode, tr) &&
    (|tr| > 0 ==> tr[0].width == imgW && tr[0].height == imgH) &&
    (forall i :: 0 <= i < |tr| ==>
      InitialMinQuality <= tr[i].quality <= InitialMaxQuality && tr[i].width >= 0 && tr[i].height >= 0) &&
    (forall i :: 0 <= i < |tr| - 1 ==> tr[i].size.Some? && !Within(tr[i].size.value, target)) &&
    (forall i :: 1 <= i < |tr| ==> Follows(target, tr[i - 1], tr[i]))
  }

  /** The loop invariant at the top of the loop: the quality lies in the
      search interval, which after the first adjustment is centred on it
      and halves with every round. */
  ghost predicate Running(encode: Encoder, target: int, imgW: nat, imgH: nat, s: Search)
    requires target > 0
  {
    |s.trace| == s.attempts <= MaxAttempts &&
    InitialMinQuality <= s.minQuality <= s.quality <= s.maxQuality <= InitialMaxQuality &&
    s.width >= 0 && s.height >= 0 &&
    TraceOk(encode, target, imgW, imgH, s.trace) &&
    (s.attempts == 0 ==> s.width == imgW && s.height == imgH && s.resultSize == 0) &&
    (s.attempts > 0 ==>
      var last := Last(s.trace);
      last.width == s.width && last.height == s.height &&
      last.size == Some(s.resultSize) && s.resultBlob == last.size &&
      !Within(s.resultSize, target) &&
      (if s.resultSize > target then s.maxQuality == last.quality else s.minQuality == last.quality) &&
      2.0 * s.quality == s.minQuality + s.maxQuality &&
      s.maxQuality - s.minQuality <= Span(s.attempts - 1))
  }

  /** What holds once the loop has ended. */
  ghost predicate Done(encode: Encoder, target: int, imgW: nat, imgH: nat, s: Search)
    requires target > 0
  {
    1 <= |s.trace| == s.attempts <= MaxAttempts &&
    InitialMinQuality <= s.minQuality <= s.quality <= s.maxQuality <= InitialMaxQuality &&
    TraceOk(encode, target, imgW, imgH, s.trace) &&
    s.resultBlob == Last(s.trace).size &&
    (s.attempts < MaxAttempts ==> Last(s.trace).size.None? || Within(Last(s.trace).size.value, target))
  }

  /** The bounds of Shrink with the product `p` named, so that the proof
      reasons about `p` as one quantity. */
  lemma ScaledFloor(p: real, x: real, factor: real, side: int)
    requires p == x * factor && x == side as real && side >= 0 && 0.0 < factor < 1.0
    ensures 0 <= p.Floor <= side
    ensures side > 0 ==> p.Floor < side
  {
    ScaledBelow(x, factor);
    FloorWithin(p, side);
  }

  /** Flooring a value between 0 and `side` lands between 0 and `side`,
      strictly below a positive `side` when the value is. */
  lemma FloorWithin(x: real, side: int)
    requires 0.0 <= x <= side as real
    ensures 0 <= x.Floor <= side
    ensures x < side as real ==> x.Floor < side
  {
    assert x.Floor as real <= x < x.Floor as real + 1.0;
  }

  lemma ScaledBelow(x: real, factor: real)
    requires x >= 0.0 && 0.0 < factor < 1.0
    ensures 0.0 <= x * factor <= x
    ensures x > 0.0 ==> x * factor < x
  {
    if x > 0.0 {
      MulPositive(x, 1.0 - factor);
      assert x - x * factor == x * (1.0 - factor);
    }
  }

  lemma InitialRunning(encode: Encoder, target: int, imgW: nat, imgH: nat, quality: real)
    requires target > 0 && InitialMinQuality <= quality <= InitialMaxQuality
    ensures Running(encode, target, imgW, imgH, Initial(imgW, imgH, quality))
  {
  }

  /** One pass of the loop body adds one attempt to the trace, and the
      trace facts still hold. */
  lemma StepTrace(encode: Encoder, scale: ScaleFn, target: int, imgW: nat, imgH: nat, s: Search)
    requires target > 0 && Shrinks(scale)
    requires Running(encode, target, imgW, imgH, s) && s.attempts < MaxAttempts
    ensures var next := Step(encode, scale, target, s).0;
      next.trace == s.trace + [Attempt(next.width, next.height, s.quality, next.resultBlob)] &&
      TraceOk(encode, target, imgW, imgH, next.trace)
  {
    var next := Step(encode, scale, target, s).0;
    var a := Attempt(next.width, next.height, s.quality, next.resultBlob);
    var tr := next.trace;
    assert tr == s.trace + [a];
    if s.attempts > 0 {
      var prev := Last(s.trace);
      assert Follows(target, prev, a);
      assert tr[|tr| - 2] == prev;
    }
    forall i | 0 <= i < |tr|
      ensures tr[i].size == encode(tr[i].width, tr[i].height, tr[i].quality)
      ensures InitialMinQuality <= tr[i].quality <= InitialMaxQuality && tr[i].width >= 0 && tr[i].height >= 0
    {
      if i < |s.trace| { assert tr[i] == s.trace[i]; }
    }
    forall i | 0 <= i < |tr| - 1
      ensures tr[i].size.Some? && !Within(tr[i].size.value, target)
    {
      assert tr[i] == s.trace[i];
    }
    forall i | 1 <= i < |tr|
      ensures Follows(target, tr[i - 1], tr[i])
    {
      if i < |s.trace| { assert tr[i] == s.trace[i] && tr[i - 1] == s.trace[i - 1]; }
    }
  }

  /** When the loop goes on, the quality is the midpoint of a search
      interval inside the old one and half as wide (after the first
      adjustment). */
  lemma StepInterval(encode: Encoder, scale: ScaleFn, target: int, imgW: nat, imgH: nat, s: Search)
    requires target > 0
    requires Running(encode, target, imgW, imgH, s) && s.attempts < MaxAttempts
    ensures var (next, stop) := Step(encode, scale, target, s);
      !stop ==>
        s.minQuality <= next.minQuality <= next.quality <= next.maxQuality <= s.maxQuality &&
        2.0 * next.quality == next.minQuality + next.maxQuality &&
        next.maxQuality - next.minQuality <= Span(s.attempts) &&
        (s.attempts > 0 ==> next.maxQuality - next.minQuality == (s.maxQuality - s.minQuality) / 2.0)
  {
    var (next, stop) := Step(encode, scale, target, s);
    var k := s.attempts;
    if !stop {
      var size := next.resultSize;
      if size > target {
        assert next.minQuality == s.minQuality && next.maxQuality == s.quality;
      } else {
        assert next.minQuality == s.quality && next.maxQuality == s.maxQuality;
      }
      if k > 0 {
        assert Span(k) == Span(k - 1) / 2.0;
      }
    }
  }

  /** One pass of the loop body keeps the invariant when the loop goes on,
      and establishes the exit facts when it breaks. */
  lemma StepKeeps(encode: Encoder, scale: ScaleFn, target: int, imgW: nat, imgH: nat, s: Search)
    requires target > 0 && Shrinks(scale)
    requires Running(encode, target, imgW, imgH, s) && s.attempts < MaxAttempts
    ensures var (next, stop) := Step(encode, scale, target, s);
      (stop ==> Done(encode, target, imgW, imgH, next)) && (!stop ==> Running(encode, target, imgW, imgH, next))
  {
    StepTrace(encode, scale, target, imgW, imgH, s);
    StepInterval(encode, scale, target, imgW, imgH, s);
    var (next, stop) := Step(encode, scale, target, s);
  }

  /** The loop, run from any state satisfying the invariant, ends in a
      state satisfying the exit facts. */
  lemma {:induction false} RunDone(encode: Encoder, scale: ScaleFn, target: int, imgW: nat, imgH: nat, s: Search)
    requires target > 0 && Shrinks(scale)
    requires Running(encode, target, imgW, imgH, s)
    ensures Done(encode, target, imgW, imgH, Run(encode, scale, target, s))
    decreases MaxAttempts - s.attempts
  {
    if s.attempts < MaxAttempts {
      StepKeeps(encode, scale, target, imgW, imgH, s);
      var (next, stop) := Step(encode, scale, target, s);
      if !stop {
        RunDone(encode, scale, target, imgW, imgH, next);
      }
    }
  }

  // ---------------------------------------------------------------------
  // The search from its initial state

  /** What the loop holds after a search of an `imgW` x `imgH` image
      started at quality `quality`. */
  function Searched(encode: Encoder, scale: ScaleFn, target: int, imgW: nat, imgH: nat, quality: real): Search
    requires target > 0
  {
    Run(encode, scale, target, Initial(imgW, imgH, quality))
  }

  lemma SearchDone(encode: Encoder, scale: ScaleFn, target: int, imgW: nat, imgH: nat, quality: real)
    requires target > 0 && Shrinks(scale) && InitialMinQuality <= quality <= InitialMaxQuality
    ensures Done(encode, target, imgW, imgH, Searched(encode, scale, target, imgW, imgH, quality))
  {
    InitialRunning(encode, target, imgW, imgH, quality);
    RunDone(encode, scale, target, imgW, imgH, Initial(imgW, imgH, quality));
  }

  /** The loop always ends, after one to ten encode attempts. */
  lemma SearchAttemptsBounded(encode: Encoder, scale: ScaleFn, target: int, imgW: nat, imgH: nat, quality: real)
    requires target > 0 && Shrinks(scale) && InitialMinQuality <= quality <= InitialMaxQuality
    ensures var r := Searched(encode, scale, target, imgW, imgH, quality);
      1 <= r.attempts <= MaxAttempts && |r.trace| == r.attempts
  {
    SearchDone(encode, scale, target, imgW, imgH, quality);
  }

  /** The first attempt encodes the image at its own size and the
      requested quality. */
  lemma SearchFirstAttempt(encode: Encoder, scale: ScaleFn, target: int, imgW: nat, imgH: nat, quality: real)
    requires target > 0 && Shrinks(scale) && InitialMinQuality <= quality <= InitialMaxQuality
    ensures var r := Searched(encode, scale, target, imgW, imgH, quality);
      |r.trace| > 0 && r.trace[0] == Attempt(imgW, imgH, quality, encode(imgW, imgH, quality))
  {
    SearchDone(encode, scale, target, imgW, imgH, quality);
    var s0 := Initial(imgW, imgH, quality);
    var (s1, stop) := Step(encode, scale, target, s0);
    assert s1.trace == [Attempt(imgW, imgH, quality, encode(imgW, imgH, quality))];
    if !stop {
      InitialRunning(encode, target, imgW, imgH, quality);
      StepKeeps(encode, scale, target, imgW, imgH, s0);
    }
  }

  /** Every attempt records what the encoder returned for it. Width and
      height never grow from one attempt to the next and never go below 0
      (they can reach it); they change only after an attempt whose blob
      came out over budget. */
  lemma SearchDimensionsNeverGrow(encode: Encoder, scale: ScaleFn, target: int, imgW: nat, imgH: nat, quality: real)
    requires target > 0 && Shrinks(scale) && InitialMinQuality <= quality <= InitialMaxQuality
    ensures var tr := Searched(encode, scale, target, imgW, imgH, quality).trace;
      Encoded(encode, tr) &&
      (forall i :: 0 <= i < |tr| ==> 0 <= tr[i].width <= imgW && 0 <= tr[i].height <= imgH) &&
      (forall i :: 1 <= i < |tr| ==> tr[i].width <= tr[i - 1].width && tr[i].height <= tr[i - 1].height) &&
      (forall i :: 1 <= i < |tr| && tr[i - 1].size.Some? && tr[i - 1].size.value <= target ==>
        tr[i].width == tr[i - 1].width && tr[i].height == tr[i - 1].height)
  {
    SearchDone(encode, scale, target, imgW, imgH, quality);
    var tr := Searched(encode, scale, target, imgW, imgH, quality).trace;
    var i := 0;
    while i < |tr|
      invariant i <= |tr|
      invariant forall j :: 0 <= j < i ==> tr[j].width <= imgW && tr[j].height <= imgH
    {
      if i > 0 { assert Follows(target, tr[i - 1], tr[i]); }
      i := i + 1;
    }
    forall i | 1 <= i < |tr| ensures tr[i].width <= tr[i - 1].width && tr[i].height <= tr[i - 1].height {
      assert Follows(target, tr[i - 1], tr[i]);
    }
  }

  /** Every attempt asks for a quality in [0.1, 1.0], and the final search
      interval still satisfies 0.1 <= min <= quality <= max <= 1.0. */
  lemma SearchQualityInRange(encode: Encoder, scale: ScaleFn, target: int, imgW: nat, imgH: nat, quality: real)
    requires target > 0 && Shrinks(scale) && InitialMinQuality <= quality <= InitialMaxQuality
    ensures var r := Searched(encode, scale, target, imgW, imgH, quality);
      (forall i :: 0 <= i < |r.trace| ==> InitialMinQuality <= r.trace[i].quality <= InitialMaxQuality) &&
      InitialMinQuality <= r.minQuality <= r.quality <= r.maxQuality <= InitialMaxQuality
  {
    SearchDone(encode, scale, target, imgW, imgH, quality);
  }

  /** After an attempt whose blob was over budget the next quality is no
      higher, after one under budget no lower. */
  lemma SearchQualityDirection(encode: Encoder, scale: ScaleFn, target: int, imgW: nat, imgH: nat, quality: real)
    requires target > 0 && Shrinks(scale) && InitialMinQuality <= quality <= InitialMaxQuality
    ensures var tr := Searched(encode, scale, target, imgW, imgH, quality).trace;
      Encoded(encode, tr) &&
      forall i :: 0 <= i < |tr| - 1 ==>
        tr[i].size.Some? &&
        if tr[i].size.value > target then tr[i + 1].quality <= tr[i].quality
        else tr[i + 1].quality >= tr[i].quality
  {
    SearchDone(encode, scale, target, imgW, imgH, quality);
    var tr := Searched(encode, scale, target, imgW, imgH, quality).trace;
    forall i | 0 <= i < |tr| - 1
      ensures tr[i].size.Some? &&
        if tr[i].size.value > target then tr[i + 1].quality <= tr[i].quality
        else tr[i + 1].quality >= tr[i].quality
    {
      assert Follows(target, tr[i + 1 - 1], tr[i + 1]);
    }
  }

  /** The loop goes on only after an attempt that produced a blob outside
      the tolerance, and it stops before the tenth attempt only on a blob
      within 10% of the target or on a null. */
  lemma SearchStopsOnlyWhenDone(encode: Encoder, scale: ScaleFn, target: int, imgW: nat, imgH: nat, quality: real)
    requires target > 0 && Shrinks(scale) && InitialMinQuality <= quality <= InitialMaxQuality
    ensures var tr := Searched(encode, scale, target, imgW, imgH, quality).trace;
      |tr| > 0 && Encoded(encode, tr) &&
      (forall i :: 0 <= i < |tr| - 1 ==> tr[i].size.Some? && !Within(tr[i].size.value, target)) &&
      (|tr| < MaxAttempts ==> Last(tr).size.None? || Within(Last(tr).size.value, target))
  {
    SearchDone(encode, scale, target, imgW, imgH, quality);
  }

  /** As written, the loop publishes what the encoder returned on the LAST
      attempt: a null there discards every blob produced before it. */
  lemma SearchPublishesLastAttempt(encode: Encoder, scale: ScaleFn, target: int, imgW: nat, imgH: nat, quality: real)
    requires target > 0 && Shrinks(scale) && InitialMinQuality <= quality <= InitialMaxQuality
    ensures var r := Searched(encode, scale, target, imgW, imgH, quality);
      |r.trace| > 0 &&
      r.resultBlob == Last(r.trace).size == encode(Last(r.trace).width, Last(r.trace).height, Last(r.trace).quality)
  {
    SearchDone(encode, scale, target, imgW, imgH, quality);
  }

  /** An encoder that never lands within the tolerance makes the loop use
      all ten attempts, and it publishes the last one's blob. */
  lemma SearchNeverCloseUsesAllAttempts(encode: Encoder, scale: ScaleFn, target: int, imgW: nat, imgH: nat, quality: real)
    requires target > 0 && Shrinks(scale) && InitialMinQuality <= quality <= InitialMaxQuality
    requires forall w, h, q :: encode(w, h, q).Some? && !Within(encode(w, h, q).value, target)
    ensures var r := Searched(encode, scale, target, imgW, imgH, quality);
      r.attempts == MaxAttempts && |r.trace| == MaxAttempts &&
      r.resultBlob == encode(Last(r.trace).width, Last(r.trace).height, Last(r.trace).quality)
  {
    SearchDone(encode, scale, target, imgW, imgH, quality);
    var tr := Searched(encode, scale, target, imgW, imgH, quality).trace;
    var a := Last(tr);
    assert a.size == encode(a.width, a.height, a.quality);
  }

  /** An encoder whose every blob is a megabyte. */
  const AlwaysMegabyte: Encoder := (w: int, h: int, q: real) => Some(1000000)

  /** Against a 1 KB budget it exhausts the attempts and the megabyte blob
      is what the loop publishes. */
  lemma OverBudgetPublishesLast(scale: ScaleFn)
    requires Shrinks(scale)
    ensures var r := Searched(AlwaysMegabyte, scale, 1024, 800, 600, 0.9);
      r.attempts == MaxAttempts && r.resultBlob == Some(1000000)
  {
    assert !Within(1000000, 1024);
    SearchNeverCloseUsesAllAttempts(AlwaysMegabyte, scale, 1024, 800, 600, 0.9);
  }

  /** A canvas encoder that, as `toBlob` does, yields null for a canvas with
      no pixels, and otherwise four bytes per pixel. */
  const ZeroAreaNull: Encoder :=
    (w: int, h: int, q: real) => if w <= 0 || h <= 0 then None else Some(4 * (w * h) as nat)

  /** A 10000x1 image against a 1 KB budget: the first attempt produces a
      40000-byte blob, the shrink floors the height to 0, the encoder
      returns null, and nothing is published. */
  lemma SearchDiscardsEarlierCandidate(scale: ScaleFn)
    requires Shrinks(scale)
    ensures var r := Searched(ZeroAreaNull, scale, 1024, 10000, 1, 0.9);
      |r.trace| == 2 && r.trace[0].size == Some(40000) && r.resultBlob == None
  {
    var s0 := Initial(10000, 1, 0.9);
    var (s1, stop1) := Step(ZeroAreaNull, scale, 1024, s0);
    assert s1.trace[0].size == Some(40000);
    assert !Within(40000, 1024) && !stop1;
    assert s1.resultSize == 40000 && s1.height == 1;
    var f := scale(1024, 40000);
    assert Shrink(1, f) == 0;
    var (s2, stop2) := Step(ZeroAreaNull, scale, 1024, s1);
    assert s2.height == 0 && stop2;
  }

  // ---------------------------------------------------------------------
  // The intended outcome: keep the last blob produced

  /** The size of the last blob any attempt produced. */
  function LastCandidate(tr: seq<Attempt>): Option<nat>
  {
    if tr == [] then None
    else if Last(tr).size.Some? then Last(tr).size
    else LastCandidate(tr[..|tr| - 1])
  }

  /** LastCandidate is None exactly when no attempt produced a blob. */
  lemma {:induction false} LastCandidateNone(tr: seq<Attempt>)
    ensures LastCandidate(tr).None? <==> forall i :: 0 <= i < |tr| ==> tr[i].size.None?
  {
    if tr != [] {
      var n := |tr| - 1;
      if tr[n].size.None? {
        var front := tr[..n];
        LastCandidateNone(front);
        assert forall i :: 0 <= i < n ==> front[i] == tr[i];
      }
    }
  }

  /** Otherwise it is the blob of an attempt after which none produced one. */
  lemma {:induction false} LastCandidateIsLast(tr: seq<Attempt>)
    ensures LastCandidate(tr).Some? ==>
      exists i :: 0 <= i < |tr| && tr[i].size == LastCandidate(tr) && forall j :: i < j < |tr| ==> tr[j].size.None?
  {
    if tr != [] {
      var n := |tr| - 1;
      if tr[n].size.Some? {
        assert tr[n].size == LastCandidate(tr);
      } else {
        var front := tr[..n];
        LastCandidateIsLast(front);
        if LastCandidate(front).Some? {
          var i :| 0 <= i < n && front[i].size == LastCandidate(front) && forall j :: i < j < n ==> front[j].size.None?;
          assert tr[i] == front[i];
          assert forall j :: i < j < n ==> tr[j] == front[j];
        }
      }
    }
  }

  /** The published blob when a later null does not discard earlier
      results: the last blob produced. */
  function Published(encode: Encoder, scale: ScaleFn, target: int, imgW: nat, imgH: nat, quality: real): Option<nat>
    requires target > 0
  {
    LastCandidate(Searched(encode, scale, target, imgW, imgH, quality).trace)
  }

  /** Kept this way, the search publishes nothing only when the very first
      encode fails, and otherwise agrees with the loop as written whenever
      that publishes something. */
  lemma PublishedUnlessFirstEncodeFails(encode: Encoder, scale: ScaleFn, target: int, imgW: nat, imgH: nat, quality: real)
    requires target > 0 && Shrinks(scale) && InitialMinQuality <= quality <= InitialMaxQuality
    ensures var p := Published(encode, scale, target, imgW, imgH, quality);
      (p.None? <==> encode(imgW, imgH, quality).None?) &&
      (var r := Searched(encode, scale, target, imgW, imgH, quality); r.resultBlob.Some? ==> p == r.resultBlob)
  {
    SearchDone(encode, scale, target, imgW, imgH, quality);
    SearchFirstAttempt(encode, scale, target, imgW, imgH, quality);
    var tr := Searched(encode, scale, target, imgW, imgH, quality).trace;
    LastCandidateNone(tr);
    if tr[0].size.None? {
      assert |tr| == 1;
    }
  }

  /** On the 10000x1 example the intended outcome keeps the 40000-byte blob. */
  lemma PublishedKeepsCandidate(scale: ScaleFn)
    requires Shrinks(scale)
    ensures Published(ZeroAreaNull, scale, 1024, 10000, 1, 0.9) == Some(40000)
  {
    SearchDiscardsEarlierCandidate(scale);
    var tr := Searched(ZeroAreaNull, scale, 1024, 10000, 1, 0.9).trace;
    assert Last(tr).size.None?;
    assert LastCandidate(tr) == LastCandidate(tr[..1]);
    assert tr[..1] == [tr[0]];
    assert LastCandidate([tr[0]]) == Some(40000);
  }
}
