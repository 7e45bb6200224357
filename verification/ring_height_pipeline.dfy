/**
  The decision logic of the ring-stack vision pipeline: choosing the widest
  bounding box below the horizon, classifying the stack as A (no rings),
  B (one ring) or C (a full stack) from that box, and the colour-threshold
  sweep `updateMin` that runs once per frame.

  The image processing itself (colour conversion, thresholding, blurring,
  contour finding, bounding boxes) is foreign library code; its output is
  the input here, as a list of integer rectangles.
 */
module RingHeightPipeline {
  import opened Geometry

  datatype Height = A | B | C {
    /** The label shown for each stack height. */
    function ToString(): (s: string)
      ensures |s| > 3 && s[1..3] == ": "
      ensures s[0] == (match this case A => 'A' case B => 'B' case C => 'C')
    {
      match this
      case A => "A: No Rings"
      case B => "B: 1 Ring"
      case C => "C: 3 Rings"
    }
  }

  /** Different heights get different labels. */
  lemma LabelsAreDistinct(h1: Height, h2: Height)
    requires h1 != h2
    ensures h1.ToString() != h2.ToString()
  {
    assert h1.ToString()[0] != h2.ToString()[0];
  }

  /** Java's `(int)` cast of a double: truncation toward zero. */
  function Truncate(x: real): (n: int)
    ensures Abs(n as real) <= Abs(x) < Abs(n as real) + 1.0
    ensures n == 0 || (n > 0 <==> x > 0.0)
  {
    if x >= 0.0 then x.Floor else -((-x).Floor)
  }

  const CAMERA_WIDTH: int := 320
  /** The horizon: boxes must reach below this row. */
  const DIVIDER: int := Truncate(100.0 / 320.0 * CAMERA_WIDTH as real)
  /** Boxes narrower than this are not a ring. */
  const MINIMUM_WIDTH: int := Truncate(50.0 / 320.0 * CAMERA_WIDTH as real)
  /** Above this height-to-width ratio the stack is full. */
  const HEIGHT_FACTOR: real := 0.7

  /** At the default camera width the scaled constants are 100 and 50 pixels. */
  lemma ConstantValues()
    ensures DIVIDER == 100 && MINIMUM_WIDTH == 50
  {
  }

  /** An OpenCV bounding rectangle: top-left corner and size, in pixels. */
  datatype Rect = Rect(x: int, y: int, width: int, height: int)

  /** `new Rect()`. */
  const EmptyRect: Rect := Rect(0, 0, 0, 0)

  /** The rectangle's bottom edge lies below the horizon. */
  predicate BelowDivider(r: Rect) {
    r.y + r.height > DIVIDER
  }

  /**
    `j` is the box the pipeline should pick: a box below the horizon with
    positive width that is at least as wide as every box below the horizon,
    and strictly wider than every such box before it.
   */
  ghost predicate IsFirstWidest(rects: seq<Rect>, j: int) {
    && 0 <= j < |rects|
    && BelowDivider(rects[j])
    && rects[j].width > 0
    && (forall i :: 0 <= i < |rects| && BelowDivider(rects[i]) ==> rects[i].width <= rects[j].width)
    && (forall i :: 0 <= i < j && BelowDivider(rects[i]) ==> rects[i].width < rects[j].width)
  }

  /**
    The loop over contours: keeps the first box of greatest width among
    those below the horizon; a box must be strictly wider than the best so
    far (which starts at width 0) to replace it.
   */
  method SelectWidest(rects: seq<Rect>) returns (maximumWidth: int, maximumRectangle: Rect)
    ensures maximumWidth == maximumRectangle.width && maximumWidth >= 0
    ensures forall i :: 0 <= i < |rects| && BelowDivider(rects[i]) ==> rects[i].width <= maximumWidth
    ensures maximumWidth == 0 ==> maximumRectangle == EmptyRect
    ensures maximumWidth > 0 ==> exists j :: IsFirstWidest(rects, j) && rects[j] == maximumRectangle
  {
    maximumWidth := 0;
    maximumRectangle := EmptyRect;
    ghost var chosen := -1;
    for k := 0 to |rects|
      invariant maximumWidth == maximumRectangle.width && maximumWidth >= 0
      invariant forall i :: 0 <= i < k && BelowDivider(rects[i]) ==> rects[i].width <= maximumWidth
      invariant maximumWidth == 0 ==> maximumRectangle == EmptyRect
      invariant maximumWidth > 0 ==>
                  && 0 <= chosen < k
                  && rects[chosen] == maximumRectangle
                  && BelowDivider(rects[chosen])
                  && forall i :: 0 <= i < chosen && BelowDivider(rects[i]) ==> rects[i].width < maximumWidth
    {
      var rectangle := rects[k];
      var width := rectangle.width;
      if width > maximumWidth && rectangle.y + rectangle.height > DIVIDER {
        maximumWidth := width;
        maximumRectangle := rectangle;
        chosen := k;
      }
    }
    if maximumWidth > 0 {
      assert IsFirstWidest(rects, chosen);
    }
  }

  /**
    The three-way decision: too narrow (or nothing found) is A; otherwise a
    box taller than HEIGHT_FACTOR times its width is C, and anything else B.
    The ratio is only taken when the width is at least MINIMUM_WIDTH.
   */
  function Classify(maximumWidth: int, maximumRectangle: Rect): (h: Height)
    requires maximumWidth == maximumRectangle.width
    ensures h == A <==> maximumWidth < MINIMUM_WIDTH
    ensures h == C <==> maximumWidth >= MINIMUM_WIDTH &&
                        maximumRectangle.height as real > HEIGHT_FACTOR * maximumRectangle.width as real
  {
    if maximumWidth >= MINIMUM_WIDTH then
      var aspectRatio := maximumRectangle.height as real / maximumRectangle.width as real;
      RatioAboveFactor(maximumRectangle.height as real, maximumRectangle.width as real);
      if aspectRatio > HEIGHT_FACTOR then C else B
    else
      A
  }

  lemma RatioAboveFactor(h: real, w: real)
    requires w > 0.0
    ensures h / w > HEIGHT_FACTOR <==> h > HEIGHT_FACTOR * w
  {
    assert h == (h / w) * w;
    if h / w > HEIGHT_FACTOR {
      assert (h / w - HEIGHT_FACTOR) * w > 0.0;
    } else {
      assert (HEIGHT_FACTOR - h / w) * w >= 0.0;
    }
  }

  /** An OpenCV colour scalar, first three channels (the fourth stays 0). */
  datatype Scalar = Scalar(v0: int, v1: int, v2: int)

  /** The colour range passed to the thresholding step. */
  datatype Thresholds = Thresholds(minimum: Scalar, maximum: Scalar)

  const Inc: int := 10
  /** The width of the colour range on every channel. */
  const Band: int := 20
  const InitialThresholds: Thresholds := Thresholds(Scalar(0, 0, 0), Scalar(20, 20, 20))

  /** Every channel's range is exactly `Band` wide. */
  predicate Balanced(t: Thresholds) {
    && t.maximum.v0 == t.minimum.v0 + Band
    && t.maximum.v1 == t.minimum.v1 + Band
    && t.maximum.v2 == t.minimum.v2 + Band
  }

  /** `a` comes before `b` comparing channel 2, then 1, then 0. */
  predicate LexLess(a: Scalar, b: Scalar) {
    a.v2 < b.v2 || (a.v2 == b.v2 && (a.v1 < b.v1 || (a.v1 == b.v1 && a.v0 < b.v0)))
  }

  /** The sweep has nowhere left to go. */
  predicate Settled(t: Thresholds) {
    t.minimum.v0 >= 255 && t.minimum.v1 >= 255 && t.maximum.v2 >= 255
  }

  /**
    `updateMin`, as written: advance channel 0; once it has passed 255,
    advance channel 1 and restart channel 0; once channel 1 has passed too,
    advance channel 2 (the guard reads its maximum) and restart channel 1 only.
   */
  function UpdateMin(t: Thresholds): (r: Thresholds)
    ensures Balanced(t) ==> Balanced(r)
    ensures r == t || LexLess(t.minimum, r.minimum)
    ensures r == t <==> Settled(t)
  {
    var lo, hi := t.minimum, t.maximum;
    if lo.v0 < 255 then
      Thresholds(lo.(v0 := lo.v0 + Inc), hi.(v0 := hi.v0 + Inc))
    else if lo.v1 < 255 then
      Thresholds(Scalar(0, lo.v1 + Inc, lo.v2), Scalar(20, hi.v1 + Inc, hi.v2))
    else if hi.v2 < 255 then
      Thresholds(Scalar(lo.v0, 0, lo.v2 + Inc), Scalar(hi.v0, 20, hi.v2 + Inc))
    else
      t
  }

  /** `n` successive calls of `updateMin`, one per frame. */
  function Sweep(t: Thresholds, n: nat): Thresholds
    decreases n
  {
    if n == 0 then t else Sweep(UpdateMin(t), n - 1)
  }

  function Remaining(v: int): nat {
    if v < 255 then 255 - v else 0
  }

  /**
    The number of frames until the sweep settles, from any start: every call
    that changes something lowers (channel 2's, channel 1's, channel 0's)
    distance to 255 lexicographically.
   */
  function StepsToSettle(t: Thresholds): (n: nat)
    ensures Settled(Sweep(t, n))
    ensures forall k :: 0 <= k < n ==> !Settled(Sweep(t, k))
    decreases Remaining(t.maximum.v2), Remaining(t.minimum.v1), Remaining(t.minimum.v0)
  {
    if Settled(t) then 0
    else
      var n := 1 + StepsToSettle(UpdateMin(t));
      assert forall k :: 1 <= k < n ==> Sweep(t, k) == Sweep(UpdateMin(t), k - 1);
      n
  }

  /** Once settled, further calls change nothing. */
  lemma {:induction false} SettledIsFixpoint(t: Thresholds, n: nat)
    requires Settled(t)
    ensures Sweep(t, n) == t
    decreases n
  {
    if n > 0 {
      SettledIsFixpoint(UpdateMin(t), n - 1);
    }
  }

  /**
    What holds along the sweep from the initial range: the width is kept,
    every minimum is a multiple of 10 within its channel's bounds, and,
    because the channel-2 step does not restart channel 0, channel 1 is back
    at 0 above the first channel-2 level only while channel 0 is past 255.
   */
  predicate OnSweep(t: Thresholds) {
    var lo := t.minimum;
    && Balanced(t)
    && lo.v0 % 10 == 0 && lo.v1 % 10 == 0 && lo.v2 % 10 == 0
    && 0 <= lo.v0 <= 260 && 0 <= lo.v1 <= 260 && 0 <= lo.v2 <= 240
    && (lo.v1 == 0 && lo.v2 > 0 ==> lo.v0 >= 255)
  }

  lemma {:induction false} SweepStaysOnSweep(t: Thresholds, n: nat)
    requires OnSweep(t)
    ensures OnSweep(Sweep(t, n))
    decreases n
  {
    if n > 0 {
      SweepStaysOnSweep(UpdateMin(t), n - 1);
    }
  }

  const FinalThresholds: Thresholds := Thresholds(Scalar(260, 260, 240), Scalar(280, 280, 260))

  /**
    From the initial range the sweep settles at minimum (260, 260, 240):
    channel 2 stops 20 short of the others because its test is on the
    maximum. Every range met on the way is 20 wide, and the ranges with
    channel 1 at 0 above the first channel-2 level are tried only with
    channel 0 past 255.
   */
  lemma SweepFromInitial()
    ensures Sweep(InitialThresholds, StepsToSettle(InitialThresholds)) == FinalThresholds
    ensures forall n: nat :: Balanced(Sweep(InitialThresholds, n))
    ensures forall n: nat :: var lo := Sweep(InitialThresholds, n).minimum;
              lo.v1 == 0 && lo.v2 > 0 ==> lo.v0 >= 255
  {
    forall n: nat ensures OnSweep(Sweep(InitialThresholds, n)) {
      SweepStaysOnSweep(InitialThresholds, n);
    }
  }

  /**
    The channel-2 step leaves channel 0 past 255, so the very next call
    advances channel 1 at once: the pass of channel 0 with channel 1 at 0 is
    skipped at every channel-2 level after the first.
   */
  lemma Channel2StepSkipsChannel0Pass(t: Thresholds)
    requires t.minimum.v0 >= 255 && t.minimum.v1 >= 255 && t.maximum.v2 < 255
    ensures UpdateMin(t).minimum == Scalar(t.minimum.v0, 0, t.minimum.v2 + Inc)
    ensures UpdateMin(UpdateMin(t)).minimum == Scalar(0, Inc, t.minimum.v2 + Inc)
  {
  }

  /** What the pipeline keeps between frames. */
  datatype Pipeline = Pipeline(height: Height, thresholds: Thresholds)

  const InitialPipeline: Pipeline := Pipeline(A, InitialThresholds)

  /**
    The decision part of `processFrame`, given the bounding boxes the image
    processing found: pick the box, classify it, then advance the sweep.
   */
  method ProcessFrame(p: Pipeline, rects: seq<Rect>) returns (next: Pipeline)
    ensures next.thresholds == UpdateMin(p.thresholds)
    ensures next.height == A <==>
              forall i :: 0 <= i < |rects| && BelowDivider(rects[i]) ==> rects[i].width < MINIMUM_WIDTH
    ensures next.height == C <==>
              exists j :: && IsFirstWidest(rects, j)
                          && rects[j].width >= MINIMUM_WIDTH
                          && rects[j].height as real > HEIGHT_FACTOR * rects[j].width as real
  {
    var maximumWidth, maximumRectangle := SelectWidest(rects);
    var height := Classify(maximumWidth, maximumRectangle);
    if maximumWidth > 0 {
      ghost var j :| IsFirstWidest(rects, j) && rects[j] == maximumRectangle;
      FirstWidestIsUnique(rects, j);
    }
    next := Pipeline(height, UpdateMin(p.thresholds));
  }

  lemma FirstWidestIsUnique(rects: seq<Rect>, j: int)
    requires IsFirstWidest(rects, j)
    ensures forall k :: IsFirstWidest(rects, k) ==> k == j
  {
  }
}
