# wow-fishing: a verified model of the bite detector

The bot casts a fishing line in World of Warcraft. It then watches the bobber
on screen frame by frame and right-clicks it when it dips. This project models
the decision logic of that loop in Dafny and proves properties of it:

- the geometry value types of `src/util.py`: `Rect` with `width`, `height`,
  `union`, `is_empty`, `center` and `from_point`, and `Point.dist`;
- from `src/wow_fishing_checker.py`:
  - the bite test `is_something_happend`;
  - the detection record `BobberInfo` and its `init`;
  - one iteration of the sampling loop of `run_fishing_cycle`;
  - the click-point arithmetic of `pull_force`.

Modules:

- `Wrappers` (`wrappers.dfy`) defines `Option`.
- `Geometry` (`geometry.dfy`) models `util.py`.
  - `Rect` is a datatype, because no box is ever changed after it is built.
  - `center()` returns a `Coord` value. The source returns a fresh `Point`
    that nobody else holds.
  - `Point` is a class, because `dist` overwrites the receiver when it sits at
    the origin.
- `FishingChecker` (`fishing.dfy`) models the checker.
  - `IsSomethingHappened` is a method with the source's summing loop. It is
    proved equal to the predicate `Significant`.
  - One loop iteration is the function `Transition` on a `CycleState` value:
    the previous record's time and box, plus the ratio log.
  - The class `FishingCycle` holds `prev: BobberInfo` and `distLog`. Its
    `Step` method runs the iteration the way the source does, with a fresh
    `BobberInfo`, two fresh `Point`s and `Point.Dist`. It is proved to produce
    exactly `Transition`'s state and outcome.
  - `RunFishingCycle` runs the loop over a finite sequence of frames. It is
    proved to return the outcome of `RunFrom`.

Coordinates, times and ratios are exact reals. Dafny has no square root, so the
`** 0.5` of `Point.dist` is a function parameter `sqrt`. The ghost predicate
`IsSquareRoot` requires it to return the non-negative square root of every
non-negative real. Each frame of the loop is given as a time stamp and an
optional detected box. This replaces `datetime.now()` and the detector.

Three behaviours of the code look unintended. The model keeps them as written:

- A new cycle's previous record is `BobberInfo()`. Its `at` is the class
  attribute that was evaluated once, when the module was loaded. It is not the
  start of the cycle (`InitialState`, `StaleTimestampTimesOut`).
- The first detection of a cycle is compared with the all-zero box. Because
  `Point.dist` self-initialises a receiver at the origin, that ratio is 0. The
  same holds for any previous box centred at the origin
  (`RatioFromOriginCenter`).
- A union box of zero width or zero height is not given a fallback ratio.
  Python raises on the division, whether it is the unused horizontal ratio or
  the vertical one. This is the outcome `ZeroDivision`. Nothing catches the
  exception, so it ends the cycle and the whole bot.

## Model

| member | source | states |
|---|---|---|
| `Geometry.Rect.Width` | src/util.py:134-136 | the width is how far the right edge lies from the left edge: `x1 + width == x2`, negative for an inverted box |
| `Geometry.Rect.Height` | src/util.py:138-140 | the height is how far the bottom edge lies from the top edge: `y1 + height == y2` |
| `Geometry.Rect.IsEmpty` | src/util.py:142-144 | true exactly when the box is the all-zero sentinel |
| `Geometry.Rect.Center` | src/util.py:146-158 | both branches (sentinel gives (0,0), otherwise x1 + width/2, y1 + height/2) equal the midpoint of the corners |
| `Geometry.Rect.Union` | src/util.py:109-114 | each corner coordinate of the union is the min (top-left) or max (bottom-right) of the two inputs' coordinates and is one of them |
| `Geometry.Rect.FromPoint` | src/util.py:80-97 | the square around `p` has width and height `2 * expand` and its center is `p` |
| `Geometry.UnionCommutative` | src/util.py:109-114 | `a.union(b) == b.union(a)` |
| `Geometry.UnionIdempotent` | src/util.py:109-114 | `r.union(r) == r` |
| `Geometry.UnionAssociative` | src/util.py:109-114 | union is associative |
| `Geometry.UnionGrows` | src/util.py:109-140 | the union is at least as wide and as high as each input, for any orientation of the inputs |
| `Geometry.CenterExamples` | src/util.py:146-158 | the sentinel's center is (0,0); `Rect(0,0,10,10)` has center (5,5) |
| `Geometry.SqDistPositive` | src/util.py:50 | the squared distance of two different points is positive |
| `Geometry.DistanceSymmetric` | src/util.py:50 | the distance from p to q equals the distance from q to p |
| `Geometry.DistanceNonNegative` | src/util.py:50 | the distance is never negative |
| `Geometry.DistanceToSelf` | src/util.py:50 | a point is at distance 0 from itself |
| `Geometry.DistancePositive` | src/util.py:50 | two different points are at positive distance |
| `Geometry.DistanceZeroIff` | src/util.py:50 | the distance is 0 if and only if the points coincide |
| `Geometry.DistanceExample` | src/util.py:50 | the distance between (3,0) and (0,4) is 5 |
| `Geometry.DistanceAlongAxis` | src/util.py:50 | moving a point by `dy >= 0` along y moves it a distance of `dy` |
| `Geometry.DistFrom` | src/util.py:46-50 | the value `dist` returns for a receiver at `p`: the distance from `q` to itself when `p` is the origin, the distance from `p` to `q` otherwise |
| `Geometry.DistFromCases` | src/util.py:46-50 | what `dist` returns: 0 for a receiver at the origin, the Euclidean distance otherwise, never negative |
| `Geometry.Point.constructor` | src/util.py:22-31 | the new point has the given coordinates |
| `Geometry.Point.Dist` | src/util.py:46-50 | a receiver at the origin is overwritten with `dest` and the result is 0; any other receiver is unchanged and the result is the Euclidean distance |
| `FishingChecker.IsSomethingHappened` | src/wow_fishing_checker.py:258-288 | the summing loop returns exactly `Significant`: at least 5 logged ratios and `cur > mean * 6`; the log is a value and is left as it was |
| `FishingChecker.Significant` | src/wow_fishing_checker.py:258-288 | the bite criterion: at least 5 logged ratios and a current ratio above six times their mean; a bite needs a full log, and against a log of non-negative sum it needs a positive ratio |
| `FishingChecker.TooFewNeverSignificant` | src/wow_fishing_checker.py:271-272 | with fewer than 5 logged ratios the test is false for every current ratio |
| `FishingChecker.SignificantIff` | src/wow_fishing_checker.py:275-288 | with at least 5 ratios the test holds if and only if `cur * len > 6 * sum` |
| `FishingChecker.SignificantMonotone` | src/wow_fishing_checker.py:284-288 | if a ratio is a bite, every larger ratio against the same log is one too |
| `FishingChecker.SignificantExamples` | src/wow_fishing_checker.py:258-288 | `[1,1,1,1,1]`: 7 is a bite and 6 is not; `[2,2,2,2,2]`: 15 is a bite; a 4-long log never is |
| `FishingChecker.BiteAfterStillLog` | src/wow_fishing_checker.py:275-288 | after five zero ratios any positive ratio is a bite |
| `FishingChecker.Trunc` | src/wow_fishing_checker.py:223 | Python's `int()` of a float: the integer between 0 and `r` at distance less than 1 from `r` (truncation toward zero) |
| `FishingChecker.ClickPoint` | src/wow_fishing_checker.py:223 | the click is the truncated midpoint of the box, 32 pixels higher |
| `FishingChecker.ClickPointExamples` | src/wow_fishing_checker.py:223 | `Rect(100,104,120,144)` clicks at (110, 92); `Rect(-5,0,0,5)` clicks at (-2, -30), truncating -2.5 toward zero |
| `FishingChecker.InitialState` | src/wow_fishing_checker.py:300-303 | the loop starts with the load-time timestamp, the all-zero box and an empty log |
| `FishingChecker.DistanceRatio` | src/wow_fishing_checker.py:328-338 | the vertical ratio, the center distance as a percentage of the union's height; it is undefined exactly when the union has zero width or zero height |
| `FishingChecker.Transition` | src/wow_fishing_checker.py:304-347 | one iteration: either the state is unchanged, or the iteration continues with the detection as the new previous record and exactly one ratio appended to the log; a timeout happens only without a detection and at least 3 s after the previous record; a pull needs a detection and at least 5 logged ratios |
| `FishingChecker.RunFrom` | src/wow_fishing_checker.py:304-347 | the loop, stopping at the first iteration that does not continue: no frames means the state is unchanged and the outcome is `Continue`; an outcome other than `Continue` needs a frame; a run that continues to the end only extends the log |
| `FishingChecker.RatioFromOriginCenter` | src/wow_fishing_checker.py:328-336 | a previous box centered at the origin gives ratio 0 or a division error |
| `FishingChecker.RatioAgainstSentinel` | src/wow_fishing_checker.py:328-336 | the first detection of a cycle (compared with the all-zero box) gives ratio 0 or a division error |
| `FishingChecker.RatioOfSameBox` | src/wow_fishing_checker.py:328-336 | two identical boxes give ratio 0 or a division error |
| `FishingChecker.RatioNonNegative` | src/wow_fishing_checker.py:328-336 | when the union's height is positive, a defined ratio is not negative |
| `FishingChecker.StepWithoutDetection` | src/wow_fishing_checker.py:314-320 | without a detection the state is unchanged, and the iteration times out if and only if the previous record is at least 3 s old; otherwise it continues |
| `FishingChecker.StepWithDetection` | src/wow_fishing_checker.py:322-347 | with a detection exactly one of: division error and no change; a bite, pull at the box's click point and no change; or the ratio is appended and the detection becomes the previous record |
| `FishingChecker.ZeroDivisionIff` | src/wow_fishing_checker.py:331-335 | an iteration with a detection fails if and only if the union has zero width or zero height |
| `FishingChecker.PullNeedsFullLog` | src/wow_fishing_checker.py:341-344 | a pull needs at least 5 logged ratios and a detection, and clicks at that detection's click point |
| `FishingChecker.AppendKeepsNoneTriggered` | src/wow_fishing_checker.py:341-347 | appending a ratio that is not a bite keeps "no logged ratio was a bite when it was logged" |
| `FishingChecker.TransitionKeepsNoneTriggered` | src/wow_fishing_checker.py:322-347 | every iteration keeps that invariant of the log |
| `FishingChecker.StaleTimestampTimesOut` | src/wow_fishing_checker.py:314-320 | the first frame of a cycle without a detection times out whenever 3 s have passed since the module was loaded |
| `FishingChecker.RunExtendsLog` | src/wow_fishing_checker.py:304-347 | over a run the old log is a prefix of the new one, which grows by at most one ratio per frame |
| `FishingChecker.RunKeepsNoneTriggered` | src/wow_fishing_checker.py:304-347 | a whole run keeps the log invariant |
| `FishingChecker.RunPullNeedsFrames` | src/wow_fishing_checker.py:304-347 | a run that pulls has at least 6 logged ratios plus frames |
| `FishingChecker.CyclePullNeedsSixFrames` | src/wow_fishing_checker.py:300-347 | from the start of a cycle no pull happens before the sixth frame |
| `FishingChecker.ShortLogStep` | src/wow_fishing_checker.py:341-347 | with fewer than 5 logged ratios a computable ratio is always appended and the detection becomes the previous record |
| `FishingChecker.BiteStep` | src/wow_fishing_checker.py:341-344 | a computable ratio that is a bite pulls at the detected box and leaves the state alone |
| `FishingChecker.StillRatio` | src/wow_fishing_checker.py:328-336 | a box of positive size, first seen or seen again in place, has ratio 0 |
| `FishingChecker.DipRatio` | src/wow_fishing_checker.py:328-336 | the same box moved down by `dy > 0` (center not at the origin) has the positive ratio `dy / (height + dy) * 100` |
| `FishingChecker.StillFrame` | src/wow_fishing_checker.py:322-347 | while the log is short, a frame with a still box logs 0 and the run goes on |
| `FishingChecker.DipFrame` | src/wow_fishing_checker.py:322-344 | after five zero ratios of a still box, a frame with that box moved down pulls at the moved box's click point and leaves the state alone |
| `FishingChecker.StillThenDipPulls` | src/wow_fishing_checker.py:300-347 | five still frames of a box and a sixth with the box moved down: the cycle pulls at the moved box's click point on the sixth frame, with five zeros logged |
| `FishingChecker.BobberInfo.constructor` | src/wow_fishing_checker.py:73-78 | a record made without a detection holds the load-time timestamp and the all-zero box |
| `FishingChecker.BobberInfo.Init` | src/wow_fishing_checker.py:80-88 | `init` sets the timestamp to the given time and the box to the argument, and changes nothing else |
| `FishingChecker.FishingCycle.constructor` | src/wow_fishing_checker.py:300-303 | a cycle starts in `InitialState` with the log invariant holding |
| `FishingChecker.FishingCycle.Step` | src/wow_fishing_checker.py:304-347 | one iteration on the objects produces exactly `Transition`'s new state and outcome and keeps the log invariant |
| `FishingChecker.RunFishingCycle` | src/wow_fishing_checker.py:300-347 | the loop over a finite frame sequence, stopping at the first timeout, pull or error, returns `RunFrom`'s outcome |

## Left out

- Window capture, window lookup and device contexts (`captureTargetWindow`,
  `findTargetWindow`) are Win32 I/O.
- The YOLO model (`init_yolo`, `detect_bobber`) is a foreign call. Each frame
  instead carries the first detected box, or none.
- The detection and `casting()` before the loop (wow_fishing_checker.py:292-297)
  are left out. Their only effect is on the game, not on the loop's state.
- `sendKey`, `casting` and the OS part of `pull_force` are input injection. That
  covers `ClientToScreen`, the mouse move and the right click. Only the
  click-point arithmetic, in client coordinates, is modelled.
- `showDetectStatus` is a debug overlay.
- The `print` logging and `test()` are left out.
- The supervisory `while True` loop of `start()` (wow_fishing_checker.py:362-364)
  is left out. A cycle runs over a finite frame sequence, and `Continue` is the
  outcome when the frames run out. After `TimedOut` or `Pulled`, `start()` runs a new cycle, which casts only
  if its first capture shows no bobber (wow_fishing_checker.py:293-297). After
  `ZeroDivision` no new cycle runs: the `ZeroDivisionError` propagates through
  `start()` and the `__main__` block, and the bot stops.
- `time.sleep` and `datetime.now()` are left out. Each iteration reads the
  clock once, so the time is part of the frame.
- Floating point is modelled as exact reals. Rounding in the average, the
  ratio and the square root is not modelled.
- `Point.Dist` uses the square root through the `sqrt` parameter. The
  floating-point `** 0.5` is not modelled.
- The horizontal ratio's value is unused, so it is not computed. Only its
  division failure is modelled, as `ZeroDivision`.
- `to_tuple`, `list`, `__str__` and `__repr__` are formatting only.
