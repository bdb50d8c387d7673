# Fall-detection frame pipeline, modelled in Dafny

This project models the decision logic of a webcam fall-detection demo: the per-frame
pipeline `process_frame` and the fall rule `is_fall` of `utils.py`.

For one captured frame, the pipeline walks the person detector's output rows in order.
It keeps a row only when its confidence is strictly above the alert threshold. For each
kept row it:

- scales the normalised box to pixels with the frame's own height and width, truncating
  like `int()`;
- crops that region out of the frame;
- runs the pose estimator on the crop and classifies the result;
- draws a rectangle at the same pixel box onto the frame in place: red `(0, 0, 255)` for a
  fall, green `(0, 255, 0)` otherwise, thickness 2.

After the loop, it sends one alert if any kept row was a fall, then returns the same frame.
The fall rule holds when the y coordinates of keypoints 0 and 1 of the first pose entry
are both strictly above 0.8.

Files:

- `classifier.dfy`, module `FallClassifier`: the pose-output shape and the fall rule
  `IsFall`, written as a pure predicate, with lemmas about it.
- `pipeline.dfy`, module `FramePipeline`. It holds:
  - the detector row (`Detection`), the pixel box (`Rect`), colours and the drawn `Annotation`;
  - the NumPy slice arithmetic of the crop (`SliceBound`, `CropOf`);
  - a `Frame` class whose `annotations` the pipeline appends to, and an `AlertSink` class
    counting alerts;
  - the imperative `ProcessFrame` method, with the loop of `process_frame`; its loop body
    is the method `VisitRow`;
  - the specification functions it is proved against: `Qualifying`, `Drawn`, `Calls`, `Reach`;
  - lemmas about those functions.

How the model treats the library calls:

- The person detector is not modelled. Its output rows are the `detections` input.
- The pose estimator is a function parameter, together with the resize and repacking of
  the crop that feed it. Its type `PoseModel` guarantees that every output has the two
  keypoints `is_fall` reads.
- The pose estimator's argument is a `View`. A `View` holds the crop's normalised row
  and column spans, plus the rectangles already drawn on the frame. The crop is a view
  into the frame that the loop draws on. So when boxes overlap, a later detection's crop
  contains the rectangles drawn for earlier ones.
- `ProcessFrame` also returns a ghost out-parameter `calls`: the sequence of views the
  pose estimator was called with. `VisitRow` records each input next to the call itself,
  and `ProcessFrame` appends what `VisitRow` recorded. This makes "called once per kept
  row, never for a dropped one" something a contract can state.

The model follows the code, not a more defensive reading of it. How `is_fall` treats a
short pose output, and what happens to a degenerate or overhanging box, is described under
"## Left out".

## Model

| member | source | states |
|---|---|---|
| FramePipeline.ProcessFrame | utils.py:12-51 | The rows are walked in order until the first kept row whose crop is empty (`Reach`). The frame's annotations are its old annotations followed by `Drawn` of the walked rows. The pose calls are `Calls` of the walked rows. The outcome is `ResizeFailed` at that row, or the same frame returned. The alert count grows by exactly 1 when the walk completed and some rectangle is red, and by 0 otherwise, so at most one alert per call. |
| FramePipeline.VisitRow | utils.py:24-45 | One pass of the loop body. The row raises exactly when it is kept and its crop is empty. The pose estimator sees the crop of the row's pixel box on the frame as it was. The pose estimator is called, once, exactly for a kept, non-raising row; the trace `called` records that one input or nothing. The fall flag is set exactly for a kept, non-raising row whose pose is a fall. For every kept, non-raising row, red or green, the frame gains exactly one rectangle, `AnnotationFor` the row; otherwise it gains nothing. |
| FramePipeline.Frame.Rectangle | utils.py:41-45 | Drawing appends exactly one rectangle, with the given box, colour and thickness, to the frame's annotations. Nothing else changes. |
| FramePipeline.AlertSink.SendAlert | utils.py:76-81 | One alert event is issued: the count grows by one. |
| FramePipeline.Trunc | utils.py:27-28 | `int()` truncates toward zero. For x >= 0 the result r is non-negative with r <= x < r + 1. For x < 0 the result is non-positive with x <= r < x + 1. |
| FramePipeline.SliceBound | utils.py:27-28 | A slice bound always lands in [0, n]. A bound already inside the axis is kept. A bound past the end becomes n. A negative bound counts back from the end, clamped at 0. |
| FramePipeline.PixelBox | utils.py:27-45 | The one pixel box both the crop and the rectangle use. A box with normalised coordinates in [0, 1] and min <= max gives pixel corners inside the frame, not inverted. Equal normalised coordinates give equal pixel coordinates. |
| FramePipeline.CropOf | utils.py:27-28 | The crop `frame[y1:y2, x1:x2]` always lies inside the frame. A box inside the frame is cropped to exactly its own rows and columns. A start in [-n, 0) wraps around to n + start. |
| FramePipeline.Drawn | utils.py:23-45 | The rectangles drawn by the walk: exactly one per kept row, each with thickness 2. |
| FramePipeline.Calls | utils.py:23-36 | The inputs of the pose estimator's calls: exactly one per kept row. |
| FramePipeline.Qualifies | utils.py:25 | The only filter on a row: its confidence is strictly above the alert threshold. |
| FramePipeline.Fails | utils.py:25-31 | A row makes `cv2.resize` raise exactly when it is kept and its crop is empty. A dropped row never raises. A kept row whose pixel box has no width or no height always raises. |
| FramePipeline.ViewFor | utils.py:27-36 | What the pose estimator is given for a row: the frame with the rectangles drawn so far, cut to the crop of the row's pixel box. For a box with normalised coordinates in [0, 1] and min <= max, the crop is exactly the box's rows and columns. |
| FramePipeline.AnnotationFor | utils.py:39-45 | The rectangle drawn for a row sits at the row's pixel box, the same box the pose estimator's crop was cut from, with thickness 2. It is red exactly when the pose output for that crop is a fall, and green exactly otherwise. |
| FramePipeline.AnyFall | utils.py:22-40 | The `fall_detected` flag after drawing a sequence of rectangles: set once some rectangle is red. `AnyFallIffSomeRed` proves this characterisation. |
| FramePipeline.ColourFor | utils.py:39-45 | The colour is red exactly for a fall and green exactly for a non-fall, so exactly one of the two is chosen. |
| FramePipeline.Qualifying | utils.py:23-25 | The kept rows are exactly the input rows whose confidence is strictly above the threshold. There are never more of them than input rows. |
| FramePipeline.Reach | utils.py:25-33 | The walked prefix stops at the first kept row whose crop is empty. No earlier row fails, and the row at the stopping index does fail. |
| FramePipeline.DrawnAt | utils.py:23-45 | There is one rectangle and one pose call per kept row, in detector order. Rectangle j sits at kept row j's pixel box, with thickness 2. Pose call j got the crop of that same box, as the frame looked after the first j rectangles. Rectangle j is red iff that output is a fall, green otherwise. |
| FramePipeline.DroppedRowsIgnored | utils.py:23-25 | Rows at or below the threshold have no effect. The rectangles and the pose calls are the same as when only the kept rows are passed. |
| FramePipeline.DropAtOrBelowThreshold | utils.py:25 | A row whose confidence equals the threshold (or is lower) is dropped. Appending it changes neither the kept rows, nor the rectangles, nor the pose calls. |
| FramePipeline.QualifyingAppend | utils.py:23-25 | Filtering commutes with concatenation, so the kept rows stay in the detector's order. |
| FramePipeline.QuietFrame | utils.py:22-51 | With no row above the threshold, the walk completes. Nothing is drawn, the pose estimator is never called and no rectangle is red. By ProcessFrame's contract, the same frame comes back unannotated and no alert is sent. |
| FramePipeline.QuietReach | utils.py:25-33 | With no row above the threshold, no row raises. |
| FramePipeline.AlertIffFallClassified | utils.py:39-49 | Some rectangle is red exactly when some pose call was classified as a fall. This is the condition on which the single alert is sent. |
| FramePipeline.AnyFallIffSomeRed | utils.py:39-40 | The `fall_detected` flag, as folded over the drawn rectangles, is set exactly when some rectangle is red. |
| FramePipeline.AxisWithin | utils.py:27-28 | A normalised pair 0 <= lo <= hi <= 1, scaled by an axis length n and truncated, gives pixel indices 0 <= lo' <= hi' <= n. A slice keeps these as they are. |
| FramePipeline.InFrameBoxCropsItsRectangle | utils.py:27-28 | For a box inside the frame, the crop covers exactly the rectangle's rows and columns. The crop is empty iff the box has zero width or height. |
| FramePipeline.ZeroAreaBoxRaises | utils.py:27-31 | A kept row with xmin = xmax or ymin = ymax is not skipped. Its pixel box has equal x or equal y corners, its crop is empty, and the pass stops at it. |
| FramePipeline.LeftOverhangRaises | utils.py:27-31 | An example: a box with xmin = -0.1 on a 640-wide frame gives pixel x1 = -64. The slice reads this as column 576, so the crop is empty and the row raises. |
| FramePipeline.LeftOverhangWraps | utils.py:27-36 | An example: a box with xmin = -0.1 and xmax = 0.95 on a 640-wide frame is not rejected. x1 = -64 becomes column 576 and x2 = 608, so the crop is columns 576 to 608 at the right-hand edge. The row does not raise, and the pose estimator is called once, on that strip. |
| FramePipeline.NegativeStartWraps | utils.py:27-28 | For a start x1 in [-width, 0) and an end x2 in [0, width], the column span is [x1 + width, x2). It is empty exactly when x2 <= x1 + width; otherwise the crop wraps to the opposite edge. |
| FramePipeline.SingleKeptRow | utils.py:23-45 | A single kept row yields one rectangle and one pose call, both for that row, on the frame as it was. |
| FramePipeline.KeptRowExample | utils.py:12-51 | An example: a detection at confidence 0.9, threshold 0.5, on a 480 x 640 frame. It gets one rectangle at (160, 120)-(320, 360). The rectangle is red and an alert is due exactly when the pose output is a fall. |
| FramePipeline.DroppedRowExample | utils.py:23-25 | An example: a detection at confidence 0.3 with threshold 0.5 draws nothing and makes no pose call. |
| FallClassifier.HasHeadAndTorso | utils.py:67-69 | The shape that the fall rule indexes without checking: entry 0 exists, it holds keypoints 0 and 1, and each has a y component at position 1. |
| FallClassifier.IsFall | utils.py:53-74 | The fall rule holds iff `pose_results[0][0][1] > 0.8` and `pose_results[0][1][1] > 0.8`. |
| FallClassifier.ClassifyPose | utils.py:67-74 | Given entry 0 with keypoints 0 and 1 of at least two components, the rule holds iff both y values exceed 0.8. No other keypoint, component or entry is read. |
| FallClassifier.LevelIsNotBelow | utils.py:72-74 | Both comparisons are strict: if the head or the torso has y at most 0.8 (0.8 itself included), it is not a fall. |
| FallClassifier.FallIsMonotone | utils.py:72-74 | Moving head and torso further down never turns a fall into a non-fall. |
| FallClassifier.ClassifierExamples | utils.py:53-74 | (0.9, 0.85) and (0.85, 0.82) are falls. (0.5, 0.9), (0.3, 0.82) and (0.8, 0.9) are not. |

## Left out

- `is_fall` indexes `pose_results[0][0][1]` and `pose_results[0][1][1]` without checks
  (utils.py:67-69), so a short pose output raises rather than giving "no fall". The model
  does not capture that exception. Instead, the `PoseModel` type requires every pose
  output to have this shape, and `IsFall` requires `HasHeadAndTorso`.
- Degenerate and overhanging boxes are not skipped or clipped (utils.py:27-31). A negative
  pixel start counts from the far edge of the frame, as a NumPy slice does. If a kept row's
  crop is empty, `cv2.resize` (utils.py:31) raises, and the model ends the call with
  `Outcome.ResizeFailed(row)`. The rectangles drawn for earlier kept rows stay on the
  frame, and no alert is sent, because `send_alert` runs only after the loop. Examples of
  boxes whose crop is empty (the list is not complete):
  - the box has zero width or height (`ZeroAreaBoxRaises`);
  - the box is inverted within the frame;
  - a negative start wraps to n + start and the end is not past it (`NegativeStartWraps`,
    `LeftOverhangRaises`);
  - the box starts at or past the far edge, so both bounds clamp to n;
  - a negative end wraps to or below the start.
  Otherwise a wrapped start gives a non-empty crop at the opposite edge. The pose
  estimator is then run on that strip, while the rectangle is drawn at the unwrapped
  corners (`LeftOverhangWraps`). A start in (-1, 0) pixels truncates to 0 and is not
  wrapped at all.

- `load_models` (utils.py:5-10): compiling the two model files with the inference runtime
  is file I/O and foreign code.
- Person detection (utils.py:14-19): the resize to 640 x 480, the channel-first repacking
  and the inference itself. Its output rows are an input of the model, one `Detection`
  per row of seven values, so the unpacking on utils.py:24 cannot fail here. The shape of
  the real output tensor is not modelled.
- Pose estimation (utils.py:31-36): the resize to 256 x 256, the repacking and the
  inference form the parameter `pose`. That `cv2.resize` raises on an empty crop is kept,
  as `ResizeFailed`. The pixels of the captured image are not modelled; a `View` stands
  for them by the crop spans and the rectangles drawn so far.
- `IsFall` assumes that `keypoints[0][1]` and `keypoints[1][1]` are scalars. An estimator
  whose entries are arrays would make the comparison on utils.py:72 ambiguous; that
  depends on foreign code.
- `cv2.rectangle` rasterisation (utils.py:41-45): a drawn rectangle is recorded as its
  corners, colour and thickness. Clipping to the image and the pixels it changes are not
  modelled.
- `send_alert`'s console output (utils.py:81): only the number of alerts is modelled.
- What follows an exception: a `ResizeFailed` outcome stands for the exception leaving
  `process_frame`; how the caller reacts is not part of this model.
- Floating point: confidences and coordinates are Dafny `real`, so IEEE rounding of the
  scaling multiplications is not modelled.
- app.py: the Streamlit page, camera capture, BGR-to-RGB conversion and the start/stop
  loop are user interface around `process_frame`, with no decision logic of their own.
