/** The per-frame pipeline: keep the detections above the alert threshold, crop each one
    out of the frame, run the pose estimator on the crop, classify the pose, draw a red or
    green rectangle onto the frame in place, and raise one alert if any kept detection fell.

    The person detector is not modelled: its output rows are the input `detections`. The
    pose estimator (with the resize and repacking of the crop in front of it) is the
    function `Context.pose`, applied to a `View`: the crop's pixel spans together with the
    rectangles already drawn onto the frame, since the crop is a view of the frame that the
    loop is drawing on. */
module FramePipeline {
  import opened FallClassifier

  /** One row of the detector's output: [batch_id, label, confidence, xmin, ymin, xmax, ymax],
      the box in coordinates normalised to the frame. */
  datatype Detection = Detection(batchId: real, classLabel: real, confidence: real,
                                 xmin: real, ymin: real, xmax: real, ymax: real)

  /** Pixel corners (x1, y1) and (x2, y2) as passed to the rectangle call. */
  datatype Rect = Rect(x1: int, y1: int, x2: int, y2: int)

  /** A colour in the frame's blue-green-red channel order. */
  datatype Bgr = Bgr(b: int, g: int, r: int)

  const FallColour: Bgr := Bgr(0, 0, 255)
  const NoFallColour: Bgr := Bgr(0, 255, 0)
  const BoxThickness: int := 2

  /** One rectangle drawn onto the frame. */
  datatype Annotation = Annotation(box: Rect, colour: Bgr, thickness: int)

  /** A slice [lo, hi) of one image axis after index normalisation; empty when hi <= lo. */
  datatype Span = Span(lo: nat, hi: nat)

  /** The rows and columns that a crop of the frame covers. */
  datatype Crop = Crop(rows: Span, cols: Span)

  /** What the pose estimator is given: the cropped region of the frame as it looks at that
      moment, that is the captured pixels in `crop` overlaid with the rectangles `overlay`. */
  datatype View = View(crop: Crop, overlay: seq<Annotation>)

  /** A pose estimator whose outputs always carry the two keypoints the fall rule reads. */
  type PoseModel = f: View -> PoseOutput | forall v :: HasHeadAndTorso(f(v))
    witness (v: View) => [[[0.0, 0.0], [0.0, 0.0]]]

  /** Everything a pass over one frame depends on besides the detections: the frame's
      height and width, the alert threshold and the pose estimator. */
  datatype Context = Context(height: nat, width: nat, threshold: real, pose: PoseModel)

  /** The outcome of one call: the (annotated) frame is returned, or resizing the crop of
      detection row `row` raised because the crop was empty. */
  datatype Outcome = Returned(frame: Frame) | ResizeFailed(row: nat)

  /** The captured image being annotated. Its pixels are not modelled; what the pipeline
      adds to it is the list of rectangles drawn, in drawing order. */
  class Frame {
    const height: nat
    const width: nat
    var annotations: seq<Annotation>

    constructor (height: nat, width: nat)
      ensures this.height == height && this.width == width
      ensures annotations == []
    {
      this.height := height;
      this.width := width;
      annotations := [];
    }

    /** Draws a rectangle outline with corners box onto the frame. */
    method Rectangle(box: Rect, colour: Bgr, thickness: int)
      modifies this
      ensures annotations == old(annotations) + [Annotation(box, colour, thickness)]
    {
      annotations := annotations + [Annotation(box, colour, thickness)];
    }
  }

  /** The notification channel; only the number of alerts issued is observable. */
  class AlertSink {
    var sent: nat

    constructor ()
      ensures sent == 0
    {
      sent := 0;
    }

    method SendAlert()
      modifies this
      ensures sent == old(sent) + 1
    {
      sent := sent + 1;
    }
  }

  /** int() applied to a float: truncation toward zero. */
  function Trunc(x: real): (r: int)
    ensures 0.0 <= x ==> 0 <= r && r as real <= x < r as real + 1.0
    ensures x < 0.0 ==> r <= 0 && x <= r as real < x + 1.0
  {
    if x >= 0.0 then x.Floor else -((-x).Floor)
  }

  /** The pixel box of a detection: x scaled by the frame's width, y by its height, each
      truncated. The crop and the rectangle are both made from it. A box whose normalised
      coordinates lie in [0, 1] with min <= max lands inside the frame, not inverted; equal
      normalised coordinates give equal pixel coordinates. */
  function PixelBox(d: Detection, height: nat, width: nat): (r: Rect)
    ensures 0.0 <= d.xmin <= d.xmax <= 1.0 ==> 0 <= r.x1 <= r.x2 <= width
    ensures 0.0 <= d.ymin <= d.ymax <= 1.0 ==> 0 <= r.y1 <= r.y2 <= height
    ensures d.xmin == d.xmax ==> r.x1 == r.x2
    ensures d.ymin == d.ymax ==> r.y1 == r.y2
  {
    AxisPixels(d.xmin, d.xmax, width);
    AxisPixels(d.ymin, d.ymax, height);
    Rect(Trunc(d.xmin * width as real), Trunc(d.ymin * height as real),
         Trunc(d.xmax * width as real), Trunc(d.ymax * height as real))
  }

  /** A slice bound normalised against an axis of length n, as a step-1 slice does:
      a negative bound counts from the end, then the result is clamped into [0, n]. */
  function SliceBound(i: int, n: nat): (r: nat)
    ensures r <= n
    ensures 0 <= i <= n ==> r == i
    ensures i > n ==> r == n
    ensures i < 0 ==> r == if i + n < 0 then 0 else i + n
  {
    if i < 0 then (if i + n < 0 then 0 else i + n)
    else if i > n then n
    else i
  }

  function SliceSpan(start: int, stop: int, n: nat): Span
  {
    Span(SliceBound(start, n), SliceBound(stop, n))
  }

  /** The region frame[y1:y2, x1:x2]. It always lies inside the frame; a box inside the
      frame is cropped to exactly its own rows and columns, and a start just past the top
      or left edge (-n <= start < 0) wraps around to n + start. */
  function CropOf(b: Rect, height: nat, width: nat): (c: Crop)
    ensures c.rows.lo <= height && c.rows.hi <= height && c.cols.lo <= width && c.cols.hi <= width
    ensures 0 <= b.x1 <= b.x2 <= width && 0 <= b.y1 <= b.y2 <= height
            ==> c == Crop(Span(b.y1, b.y2), Span(b.x1, b.x2))
    ensures -(width as int) <= b.x1 < 0 ==> c.cols.lo == b.x1 + width
    ensures -(height as int) <= b.y1 < 0 ==> c.rows.lo == b.y1 + height
  {
    Crop(SliceSpan(b.y1, b.y2, height), SliceSpan(b.x1, b.x2, width))
  }

  predicate IsEmptyCrop(c: Crop)
  {
    c.rows.hi <= c.rows.lo || c.cols.hi <= c.cols.lo
  }

  /** The only filter: a confidence strictly above the threshold. */
  predicate Qualifies(d: Detection, threshold: real)
  {
    d.confidence > threshold
  }

  /** A kept detection whose crop is empty: resizing it raises. A dropped row never raises;
      a kept row whose pixel box has no width or no height always does. */
  predicate Fails(d: Detection, ctx: Context): (fails: bool)
    ensures fails ==> Qualifies(d, ctx.threshold)
    ensures var b := PixelBox(d, ctx.height, ctx.width);
            Qualifies(d, ctx.threshold) && (b.x1 == b.x2 || b.y1 == b.y2) ==> fails
  {
    Qualifies(d, ctx.threshold) && IsEmptyCrop(CropOf(PixelBox(d, ctx.height, ctx.width), ctx.height, ctx.width))
  }

  function ColourFor(fall: bool): (c: Bgr)
    ensures c == FallColour <==> fall
    ensures c == NoFallColour <==> !fall
  {
    if fall then FallColour else NoFallColour
  }

  /** The view the pose estimator gets for detection d when overlay is already drawn: the
      frame with overlay on it, cut to the crop of d's pixel box. For a box with normalised
      coordinates in [0, 1] and min <= max, that crop is exactly the box's rows and columns. */
  function ViewFor(d: Detection, overlay: seq<Annotation>, ctx: Context): (v: View)
    ensures v.overlay == overlay
    ensures var b := PixelBox(d, ctx.height, ctx.width);
            0.0 <= d.xmin <= d.xmax <= 1.0 && 0.0 <= d.ymin <= d.ymax <= 1.0
            ==> v.crop == Crop(Span(b.y1, b.y2), Span(b.x1, b.x2))
  {
    View(CropOf(PixelBox(d, ctx.height, ctx.width), ctx.height, ctx.width), overlay)
  }

  /** The rectangle drawn for detection d when overlay is already drawn: at d's pixel box,
      the box the pose estimator's crop was cut from, thickness 2, and red exactly when the
      pose estimator's output for that crop is a fall. */
  function AnnotationFor(d: Detection, overlay: seq<Annotation>, ctx: Context): (a: Annotation)
    ensures a.box == PixelBox(d, ctx.height, ctx.width) && a.thickness == BoxThickness
    ensures ViewFor(d, overlay, ctx).crop == CropOf(a.box, ctx.height, ctx.width)
    ensures a.colour == FallColour <==> IsFall(ctx.pose(ViewFor(d, overlay, ctx)))
    ensures a.colour == NoFallColour <==> !IsFall(ctx.pose(ViewFor(d, overlay, ctx)))
  {
    Annotation(PixelBox(d, ctx.height, ctx.width),
               ColourFor(IsFall(ctx.pose(ViewFor(d, overlay, ctx)))), BoxThickness)
  }

  /** The rows kept, in the detector's order. */
  function Qualifying(dets: seq<Detection>, threshold: real): (q: seq<Detection>)
    ensures |q| <= |dets|
    ensures forall d :: d in q <==> d in dets && Qualifies(d, threshold)
    decreases |dets|
  {
    if dets == [] then []
    else
      var init, last := dets[..|dets| - 1], dets[|dets| - 1];
      assert dets == init + [last];
      if Qualifies(last, threshold) then Qualifying(init, threshold) + [last]
      else Qualifying(init, threshold)
  }

  /** The rectangles drawn while walking dets in order onto a frame that already shows base:
      one per kept row, each of thickness 2. */
  function Drawn(dets: seq<Detection>, base: seq<Annotation>, ctx: Context): (drawn: seq<Annotation>)
    ensures |drawn| == |Qualifying(dets, ctx.threshold)|
    ensures forall a :: a in drawn ==> a.thickness == BoxThickness
    decreases |dets|
  {
    if dets == [] then []
    else
      var prev := Drawn(dets[..|dets| - 1], base, ctx);
      var last := dets[|dets| - 1];
      if Qualifies(last, ctx.threshold) then prev + [AnnotationFor(last, base + prev, ctx)]
      else prev
  }

  /** The inputs of the pose estimator's calls while walking dets, in order: one per kept
      row. */
  function Calls(dets: seq<Detection>, base: seq<Annotation>, ctx: Context): (calls: seq<View>)
    ensures |calls| == |Qualifying(dets, ctx.threshold)|
    decreases |dets|
  {
    if dets == [] then []
    else
      var init := dets[..|dets| - 1];
      var last := dets[|dets| - 1];
      if Qualifies(last, ctx.threshold) then Calls(init, base, ctx) + [ViewFor(last, base + Drawn(init, base, ctx), ctx)]
      else Calls(init, base, ctx)
  }

  /** How many rows are walked before one raises: the index of the first kept row with an
      empty crop, or |dets| when there is none. */
  function Reach(dets: seq<Detection>, ctx: Context): (m: nat)
    ensures m <= |dets|
    ensures forall i :: 0 <= i < m ==> !Fails(dets[i], ctx)
    ensures m < |dets| ==> Fails(dets[m], ctx)
    decreases |dets|
  {
    if dets == [] || Fails(dets[0], ctx) then 0 else 1 + Reach(dets[1..], ctx)
  }

  /** Some rectangle is the fall colour: the fall_detected flag after drawing drawn. */
  predicate AnyFall(drawn: seq<Annotation>)
    decreases |drawn|
  {
    drawn != [] && (drawn[|drawn| - 1].colour == FallColour || AnyFall(drawn[..|drawn| - 1]))
  }

  /** The loop body of process_frame for one row: a row at or below the threshold is
      passed over; a kept row is cropped, and then either its empty crop makes the resize
      raise, or its pose is classified and its rectangle drawn red or green. */
  method VisitRow(frame: Frame, detection: Detection, pose: PoseModel, alertThreshold: real)
    returns (raised: bool, fall: bool, ghost called: seq<View>)
    modifies frame
    ensures var ctx := Context(frame.height, frame.width, alertThreshold, pose);
            var kept := Qualifies(detection, alertThreshold);
            && raised == Fails(detection, ctx)
            && called == (if kept && !raised then [ViewFor(detection, old(frame.annotations), ctx)] else [])
            && fall == (kept && !raised && IsFall(pose(ViewFor(detection, old(frame.annotations), ctx))))
            && frame.annotations == old(frame.annotations)
               + (if kept && !raised then [AnnotationFor(detection, old(frame.annotations), ctx)] else [])
  {
    raised, fall, called := false, false, [];
    if detection.confidence > alertThreshold {
      var box := PixelBox(detection, frame.height, frame.width);
      var region := CropOf(box, frame.height, frame.width);
      if IsEmptyCrop(region) {
        raised := true;
        return;
      }
      var crop := View(region, frame.annotations);
      var keypoints := pose(crop);
      called := [crop];
      if IsFall(keypoints) {
        fall := true;
        frame.Rectangle(box, FallColour, BoxThickness);
      } else {
        frame.Rectangle(box, NoFallColour, BoxThickness);
      }
    }
  }

  /** process_frame: walks the detector's rows in order, crops, classifies and draws for
      each kept row, and alerts once at the end if any kept row fell. */
  method ProcessFrame(frame: Frame, detections: seq<Detection>, pose: PoseModel,
                      alertThreshold: real, sink: AlertSink)
    returns (outcome: Outcome, ghost calls: seq<View>)
    modifies frame, sink
    ensures var ctx := Context(frame.height, frame.width, alertThreshold, pose);
            var m := Reach(detections, ctx);
            var drawn := Drawn(detections[..m], old(frame.annotations), ctx);
            && frame.annotations == old(frame.annotations) + drawn
            && calls == Calls(detections[..m], old(frame.annotations), ctx)
            && outcome == (if m < |detections| then ResizeFailed(m) else Returned(frame))
            && sink.sent == old(sink.sent) + (if m == |detections| && AnyFall(drawn) then 1 else 0)
  {
    ghost var ctx := Context(frame.height, frame.width, alertThreshold, pose);
    ghost var base := frame.annotations;
    var fallDetected := false;
    calls := [];
    var i := 0;
    while i < |detections|
      invariant i <= Reach(detections, ctx)
      invariant frame.annotations == base + Drawn(detections[..i], base, ctx)
      invariant calls == Calls(detections[..i], base, ctx)
      invariant fallDetected == AnyFall(Drawn(detections[..i], base, ctx))
      invariant sink.sent == old(sink.sent)
    {
      WalkStep(detections, i, base, ctx);
      var raised, fall, called := VisitRow(frame, detections[i], pose, alertThreshold);
      ReachStep(detections, i, ctx);
      if raised {
        return ResizeFailed(i), calls;
      }
      calls := calls + called;
      if fall {
        fallDetected := true;
      }
      i := i + 1;
    }
    assert Reach(detections, ctx) == |detections|;
    assert detections[..|detections|] == detections;
    if fallDetected {
      sink.SendAlert();
    }
    outcome := Returned(frame);
  }

  /** Walking one more row: it is the stopping row exactly when it fails. */
  lemma ReachStep(dets: seq<Detection>, i: nat, ctx: Context)
    requires i <= Reach(dets, ctx) && i < |dets|
    ensures Fails(dets[i], ctx) ==> Reach(dets, ctx) == i
    ensures !Fails(dets[i], ctx) ==> i < Reach(dets, ctx)
  {
  }

  /** Walking one more row: how the rectangles, the pose calls and the fall flag grow. */
  lemma WalkStep(dets: seq<Detection>, i: nat, base: seq<Annotation>, ctx: Context)
    requires i < |dets|
    ensures var prev, d := Drawn(dets[..i], base, ctx), dets[i];
            var kept := Qualifies(d, ctx.threshold);
            && Drawn(dets[..i + 1], base, ctx)
               == (if kept then prev + [AnnotationFor(d, base + prev, ctx)] else prev)
            && base + Drawn(dets[..i + 1], base, ctx)
               == base + prev + (if kept then [AnnotationFor(d, base + prev, ctx)] else [])
            && Calls(dets[..i + 1], base, ctx)
               == (if kept then Calls(dets[..i], base, ctx) + [ViewFor(d, base + prev, ctx)] else Calls(dets[..i], base, ctx))
            && AnyFall(Drawn(dets[..i + 1], base, ctx))
               == (AnyFall(prev) || (kept && IsFall(ctx.pose(ViewFor(d, base + prev, ctx)))))
  {
    assert dets[..i + 1][..i] == dets[..i];
    assert dets[..i + 1][i] == dets[i];
    var prev, d := Drawn(dets[..i], base, ctx), dets[i];
    WalkFall(prev, AnnotationFor(d, base + prev, ctx), Qualifies(d, ctx.threshold));
    AppendAssoc(base, prev, [AnnotationFor(d, base + prev, ctx)]);
  }

  lemma WalkFall(prev: seq<Annotation>, a: Annotation, kept: bool)
    ensures AnyFall(if kept then prev + [a] else prev) == (AnyFall(prev) || (kept && a.colour == FallColour))
  {
    AnyFallAppend(prev, a);
  }

  lemma AppendAssoc(a: seq<Annotation>, b: seq<Annotation>, c: seq<Annotation>)
    ensures a + b + c == a + (b + c)
    ensures a + b + [] == a + b
  {
  }

  lemma AnyFallAppend(drawn: seq<Annotation>, a: Annotation)
    ensures AnyFall(drawn + [a]) == (AnyFall(drawn) || a.colour == FallColour)
  {
    assert (drawn + [a])[..|drawn|] == drawn;
  }

  /** The flag is set exactly when some rectangle is red. */
  lemma {:induction false} AnyFallIffSomeRed(drawn: seq<Annotation>)
    ensures AnyFall(drawn) <==> exists j :: 0 <= j < |drawn| && drawn[j].colour == FallColour
    decreases |drawn|
  {
    if drawn != [] {
      var init := drawn[..|drawn| - 1];
      AnyFallIffSomeRed(init);
      if exists j :: 0 <= j < |init| && init[j].colour == FallColour {
        var j :| 0 <= j < |init| && init[j].colour == FallColour;
        assert drawn[j] == init[j];
      }
      if exists j :: 0 <= j < |drawn| && drawn[j].colour == FallColour {
        var j :| 0 <= j < |drawn| && drawn[j].colour == FallColour;
        if j < |init| {
          assert init[j] == drawn[j];
        }
      }
    }
  }

  /** Drawing order and contents: one rectangle and one pose call per kept row, in the
      detector's order; rectangle j sits at kept row j's pixel box, the pose estimator was
      given the crop of that same box as the frame looked with the first j rectangles
      drawn, and the rectangle is red exactly when that output is a fall, green otherwise. */
  lemma {:induction false} DrawnAt(dets: seq<Detection>, base: seq<Annotation>, ctx: Context)
    ensures var q := Qualifying(dets, ctx.threshold);
            var drawn := Drawn(dets, base, ctx);
            var calls := Calls(dets, base, ctx);
            && |drawn| == |q| && |calls| == |q|
            && forall j :: 0 <= j < |q| ==>
                 && drawn[j].box == PixelBox(q[j], ctx.height, ctx.width)
                 && drawn[j].thickness == BoxThickness
                 && calls[j] == View(CropOf(drawn[j].box, ctx.height, ctx.width), base + drawn[..j])
                 && drawn[j].colour == ColourFor(IsFall(ctx.pose(calls[j])))
    decreases |dets|
  {
    if dets != [] {
      var init, last := dets[..|dets| - 1], dets[|dets| - 1];
      DrawnAt(init, base, ctx);
      var q', drawn', calls' := Qualifying(init, ctx.threshold), Drawn(init, base, ctx), Calls(init, base, ctx);
      if Qualifies(last, ctx.threshold) {
        var drawn := Drawn(dets, base, ctx);
        assert drawn == drawn' + [AnnotationFor(last, base + drawn', ctx)];
        assert drawn[..|q'|] == drawn';
        forall j | 0 <= j < |q'|
          ensures drawn[..j] == drawn'[..j]
        {
          assert drawn[..j] == drawn[..|q'|][..j];
        }
      }
    }
  }

  /** Rows at or below the threshold leave no trace: the rectangles and the pose calls are
      those of the kept rows alone. */
  lemma {:induction false} DroppedRowsIgnored(dets: seq<Detection>, base: seq<Annotation>, ctx: Context)
    ensures Drawn(dets, base, ctx) == Drawn(Qualifying(dets, ctx.threshold), base, ctx)
    ensures Calls(dets, base, ctx) == Calls(Qualifying(dets, ctx.threshold), base, ctx)
    decreases |dets|
  {
    if dets != [] {
      var init, last := dets[..|dets| - 1], dets[|dets| - 1];
      DroppedRowsIgnored(init, base, ctx);
      var q' := Qualifying(init, ctx.threshold);
      if Qualifies(last, ctx.threshold) {
        var q := q' + [last];
        assert q[..|q| - 1] == q' && q[|q| - 1] == last;
      }
    }
  }

  /** A row whose confidence is not strictly above the threshold, equal included, is dropped:
      appending it changes neither the kept rows, nor the rectangles, nor the pose calls. */
  lemma DropAtOrBelowThreshold(dets: seq<Detection>, d: Detection, base: seq<Annotation>, ctx: Context)
    requires d.confidence <= ctx.threshold
    ensures Qualifying(dets + [d], ctx.threshold) == Qualifying(dets, ctx.threshold)
    ensures Drawn(dets + [d], base, ctx) == Drawn(dets, base, ctx)
    ensures Calls(dets + [d], base, ctx) == Calls(dets, base, ctx)
  {
    assert (dets + [d])[..|dets|] == dets;
  }

  /** Keeping rows commutes with concatenation, so the kept rows keep the detector's order. */
  lemma {:induction false} QualifyingAppend(a: seq<Detection>, b: seq<Detection>, threshold: real)
    ensures Qualifying(a + b, threshold) == Qualifying(a, threshold) + Qualifying(b, threshold)
    decreases |b|
  {
    if b == [] {
      assert a + b == a;
    } else {
      var init, last := b[..|b| - 1], b[|b| - 1];
      assert (a + b)[..|a + b| - 1] == a + init;
      assert (a + b)[|a + b| - 1] == last;
      QualifyingAppend(a, init, threshold);
    }
  }

  /** With no row above the threshold nothing is drawn, the pose estimator is never called,
      nothing raises and (by ProcessFrame's contract) no alert is sent: the frame comes back
      as it went in. */
  lemma {:induction false} QuietFrame(dets: seq<Detection>, base: seq<Annotation>, ctx: Context)
    requires forall i :: 0 <= i < |dets| ==> dets[i].confidence <= ctx.threshold
    ensures Qualifying(dets, ctx.threshold) == []
    ensures Drawn(dets, base, ctx) == [] && Calls(dets, base, ctx) == []
    ensures Reach(dets, ctx) == |dets|
    ensures !AnyFall(Drawn(dets, base, ctx))
    decreases |dets|
  {
    if dets != [] {
      var init := dets[..|dets| - 1];
      assert forall i :: 0 <= i < |init| ==> init[i] == dets[i];
      QuietFrame(init, base, ctx);
      QuietReach(dets, ctx);
    }
  }

  lemma {:induction false} QuietReach(dets: seq<Detection>, ctx: Context)
    requires forall i :: 0 <= i < |dets| ==> dets[i].confidence <= ctx.threshold
    ensures Reach(dets, ctx) == |dets|
    decreases |dets|
  {
    if dets != [] {
      assert forall i :: 0 <= i < |dets[1..]| ==> dets[1..][i] == dets[i + 1];
      QuietReach(dets[1..], ctx);
    }
  }

  /** The alert condition: some rectangle is red exactly when some pose call was classified
      as a fall. */
  lemma AlertIffFallClassified(dets: seq<Detection>, base: seq<Annotation>, ctx: Context)
    ensures var calls := Calls(dets, base, ctx);
            AnyFall(Drawn(dets, base, ctx)) <==> exists j :: 0 <= j < |calls| && IsFall(ctx.pose(calls[j]))
  {
    DrawnAt(dets, base, ctx);
    var drawn, calls := Drawn(dets, base, ctx), Calls(dets, base, ctx);
    AnyFallIffSomeRed(drawn);
    forall j | 0 <= j < |calls|
      ensures drawn[j].colour == FallColour <==> IsFall(ctx.pose(calls[j]))
    {
    }
  }

  lemma {:induction false} TruncMonotone(x: real, y: real)
    requires x <= y
    ensures Trunc(x) <= Trunc(y)
  {
  }

  /** AxisWithin for any pair, stated as an implication so that PixelBox can use it. */
  lemma AxisPixels(lo: real, hi: real, n: nat)
    ensures 0.0 <= lo <= hi <= 1.0 ==> 0 <= Trunc(lo * n as real) <= Trunc(hi * n as real) <= n
    ensures lo == hi ==> Trunc(lo * n as real) == Trunc(hi * n as real)
  {
    if 0.0 <= lo <= hi <= 1.0 {
      AxisWithin(lo, hi, n);
    }
  }

  lemma ScaleOrdered(lo: real, hi: real, n: real)
    requires 0.0 <= lo <= hi <= 1.0 && 0.0 <= n
    ensures 0.0 <= lo * n <= hi * n <= n
  {
    assert hi * n - lo * n == (hi - lo) * n;
    assert n - hi * n == (1.0 - hi) * n;
  }

  lemma TruncWithin(x: real, y: real, n: nat)
    requires 0.0 <= x <= y <= n as real
    ensures 0 <= Trunc(x) <= Trunc(y) <= n
    ensures SliceSpan(Trunc(x), Trunc(y), n) == Span(Trunc(x), Trunc(y))
  {
    TruncMonotone(x, y);
    TruncMonotone(y, n as real);
  }

  /** A normalised pair lo <= hi in [0, 1], scaled by an axis length n and truncated, gives
      pixel indices 0 <= lo' <= hi' <= n, which a slice over that axis keeps as they are. */
  lemma AxisWithin(lo: real, hi: real, n: nat)
    requires 0.0 <= lo <= hi <= 1.0
    ensures 0 <= Trunc(lo * n as real) <= Trunc(hi * n as real) <= n
    ensures SliceSpan(Trunc(lo * n as real), Trunc(hi * n as real), n)
            == Span(Trunc(lo * n as real), Trunc(hi * n as real))
  {
    ScaleOrdered(lo, hi, n as real);
    TruncWithin(lo * n as real, hi * n as real, n);
  }

  /** A rectangle whose corners lie inside the frame, not inverted, is cropped to exactly
      its rows y1..y2 and columns x1..x2; by AxisWithin this is the case for every box with
      normalised coordinates in [0, 1] and min <= max. */
  lemma InFrameBoxCropsItsRectangle(b: Rect, height: nat, width: nat)
    requires 0 <= b.x1 <= b.x2 <= width && 0 <= b.y1 <= b.y2 <= height
    ensures CropOf(b, height, width) == Crop(Span(b.y1, b.y2), Span(b.x1, b.x2))
    ensures IsEmptyCrop(CropOf(b, height, width)) <==> b.x1 == b.x2 || b.y1 == b.y2
  {
  }

  lemma DegenerateRectIsEmpty(b: Rect, height: nat, width: nat)
    requires b.x1 == b.x2 || b.y1 == b.y2
    ensures IsEmptyCrop(CropOf(b, height, width))
  {
  }

  /** Degenerate boxes are not skipped: a kept row with no width or no height raises. */
  lemma ZeroAreaBoxRaises(d: Detection, ctx: Context)
    requires d.confidence > ctx.threshold
    requires d.xmin == d.xmax || d.ymin == d.ymax
    ensures PixelBox(d, ctx.height, ctx.width).x1 == PixelBox(d, ctx.height, ctx.width).x2
            || PixelBox(d, ctx.height, ctx.width).y1 == PixelBox(d, ctx.height, ctx.width).y2
    ensures Fails(d, ctx)
    ensures Reach([d], ctx) == 0
  {
    var b := PixelBox(d, ctx.height, ctx.width);
    DegenerateRectIsEmpty(b, ctx.height, ctx.width);
    assert [d][0] == d;
  }

  /** A box reaching slightly past the left edge is not clipped: int(-0.1 * 640) is -64,
      which the slice reads as column 576, so the crop is empty and the resize raises. */
  lemma LeftOverhangRaises(pose: PoseModel)
    ensures var d := Detection(0.0, 1.0, 0.9, -0.1, 0.1, 0.5, 0.9);
            var ctx := Context(480, 640, 0.5, pose);
            && PixelBox(d, 480, 640).x1 == -64
            && CropOf(PixelBox(d, 480, 640), 480, 640).cols == Span(576, 320)
            && Fails(d, ctx)
  {
    var d := Detection(0.0, 1.0, 0.9, -0.1, 0.1, 0.5, 0.9);
    assert d.xmin * 640 as real == -64.0;
    assert d.xmax * 640 as real == 320.0;
  }

  /** A box reaching past the left edge that still ends far enough right is not rejected
      either: x1 = -64 becomes column 576 and x2 = int(0.95 * 640) = 608, so the crop is the
      strip of columns 576..608 at the right-hand edge and the pose estimator is run on it. */
  lemma LeftOverhangWraps(pose: PoseModel)
    ensures var d := Detection(0.0, 1.0, 0.9, -0.1, 0.1, 0.95, 0.9);
            var ctx := Context(480, 640, 0.5, pose);
            && PixelBox(d, 480, 640).x1 == -64
            && CropOf(PixelBox(d, 480, 640), 480, 640).cols == Span(576, 608)
            && !Fails(d, ctx)
            && Reach([d], ctx) == 1
            && Calls([d], [], ctx) == [View(Crop(Span(48, 432), Span(576, 608)), [])]
  {
    var d := Detection(0.0, 1.0, 0.9, -0.1, 0.1, 0.95, 0.9);
    var ctx := Context(480, 640, 0.5, pose);
    assert d.xmin * 640 as real == -64.0;
    assert d.xmax * 640 as real == 608.0;
    assert d.ymin * 480 as real == 48.0;
    assert d.ymax * 480 as real == 432.0;
    assert PixelBox(d, 480, 640) == Rect(-64, 48, 608, 432);
    assert CropOf(Rect(-64, 48, 608, 432), 480, 640) == Crop(Span(48, 432), Span(576, 608));
    SingleKeptRow(d, [], ctx);
    assert [d][0] == d && [d][1..] == [];
  }

  /** A negative start empties the crop exactly when the end does not lie past the wrapped
      start: otherwise the crop wraps to the opposite edge of the frame. */
  lemma NegativeStartWraps(b: Rect, height: nat, width: nat)
    requires -(width as int) <= b.x1 < 0 && 0 <= b.x2 <= width
    ensures CropOf(b, height, width).cols == Span(b.x1 + width, b.x2)
    ensures CropOf(b, height, width).cols.hi <= CropOf(b, height, width).cols.lo <==> b.x2 <= b.x1 + width
  {
  }

  /** One kept row: one rectangle from that row and one pose call on its crop. */
  lemma SingleKeptRow(d: Detection, base: seq<Annotation>, ctx: Context)
    requires d.confidence > ctx.threshold
    ensures Qualifying([d], ctx.threshold) == [d]
    ensures Drawn([d], base, ctx) == [AnnotationFor(d, base, ctx)]
    ensures Calls([d], base, ctx) == [ViewFor(d, base, ctx)]
  {
    assert [d][..0] == [];
    assert base + [] == base;
  }

  /** One detection at confidence 0.9 with box (0.25, 0.25)-(0.5, 0.75) on a 480 x 640
      frame, threshold 0.5: one rectangle at pixels (160, 120)-(320, 360), red when the pose
      estimator reports a fall and green otherwise, and an alert exactly for a fall. */
  lemma KeptRowExample(pose: PoseModel, fall: bool)
    requires forall v :: IsFall(pose(v)) == fall
    ensures var ctx := Context(480, 640, 0.5, pose);
            var d := Detection(0.0, 1.0, 0.9, 0.25, 0.25, 0.5, 0.75);
            && Reach([d], ctx) == 1
            && Drawn([d], [], ctx) == [Annotation(Rect(160, 120, 320, 360), ColourFor(fall), BoxThickness)]
            && |Calls([d], [], ctx)| == 1
            && AnyFall(Drawn([d], [], ctx)) == fall
  {
    var ctx := Context(480, 640, 0.5, pose);
    var d := Detection(0.0, 1.0, 0.9, 0.25, 0.25, 0.5, 0.75);
    assert PixelBox(d, 480, 640) == Rect(160, 120, 320, 360);
    assert !IsEmptyCrop(CropOf(Rect(160, 120, 320, 360), 480, 640));
    SingleKeptRow(d, [], ctx);
    assert Drawn([d], [], ctx)[0] == AnnotationFor(d, [], ctx);
    if !fall {
      assert Drawn([d], [], ctx)[0].colour != FallColour;
    }
  }

  /** The same detection at confidence 0.3: nothing is drawn and the pose estimator is not
      called. */
  lemma DroppedRowExample(pose: PoseModel)
    ensures var ctx := Context(480, 640, 0.5, pose);
            var faint := Detection(0.0, 1.0, 0.3, 0.25, 0.25, 0.5, 0.75);
            && Reach([faint], ctx) == 1
            && Drawn([faint], [], ctx) == [] && Calls([faint], [], ctx) == []
  {
    var faint := Detection(0.0, 1.0, 0.3, 0.25, 0.25, 0.5, 0.75);
    DropAtOrBelowThreshold([], faint, [], Context(480, 640, 0.5, pose));
    assert [] + [faint] == [faint];
  }

  /** The examples go through ProcessFrame's contract: a fall gives one red box and one
      alert. */
  method FallExample()
  {
    var d := Detection(0.0, 1.0, 0.9, 0.25, 0.25, 0.5, 0.75);
    assert [d][..1] == [d];
    var fallen: PoseModel := (v: View) => [[[0.0, 0.85], [0.0, 0.82]]];
    ClassifierExamples();
    KeptRowExample(fallen, true);
    var frame := new Frame(480, 640);
    var sink := new AlertSink();
    var outcome, calls := ProcessFrame(frame, [d], fallen, 0.5, sink);
    assert frame.annotations == [Annotation(Rect(160, 120, 320, 360), FallColour, BoxThickness)];
    assert sink.sent == 1 && outcome == Returned(frame) && |calls| == 1;
  }

  /** An upright pose gives one green box and no alert. */
  method UprightExample()
  {
    var d := Detection(0.0, 1.0, 0.9, 0.25, 0.25, 0.5, 0.75);
    assert [d][..1] == [d];
    var upright: PoseModel := (v: View) => [[[0.0, 0.3], [0.0, 0.82]]];
    ClassifierExamples();
    KeptRowExample(upright, false);
    var frame := new Frame(480, 640);
    var sink := new AlertSink();
    var outcome, calls := ProcessFrame(frame, [d], upright, 0.5, sink);
    assert frame.annotations == [Annotation(Rect(160, 120, 320, 360), NoFallColour, BoxThickness)];
    assert sink.sent == 0 && outcome == Returned(frame) && |calls| == 1;
  }

  /** A row below the threshold leaves the frame as it was and sends no alert. */
  method DroppedExample()
  {
    var faint := Detection(0.0, 1.0, 0.3, 0.25, 0.25, 0.5, 0.75);
    assert [faint][..1] == [faint];
    var fallen: PoseModel := (v: View) => [[[0.0, 0.85], [0.0, 0.82]]];
    DroppedRowExample(fallen);
    var frame := new Frame(480, 640);
    var sink := new AlertSink();
    var outcome, calls := ProcessFrame(frame, [faint], fallen, 0.5, sink);
    assert frame.annotations == [] && calls == [];
    assert sink.sent == 0 && outcome == Returned(frame);
  }
}
