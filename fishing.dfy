/**
 * The decision logic of one fishing cycle: the bite test on the log of
 * distance ratios, the per-frame step of the sampling loop, and the click
 * point of the pull. Screen capture, object detection, input injection and
 * the clock are outside the model: each frame arrives as a timestamp and an
 * optional detected box.
 */
module FishingChecker {
  import opened Wrappers
  import opened Geometry

  /** Fewer logged ratios than this never count as a bite. */
  const MinDistanceCount: nat := 5

  /** A ratio is a bite when it exceeds this many times the mean of the log. */
  const BiteFactor: real := 6.0

  /** Seconds without a detection after which the cycle gives up. */
  const TimeoutSeconds: real := 3.0

  /** The click goes this many pixels above the bobber's center. */
  const ClickYOffset: int := 32

  /** Ratios are percentages of the union box's height. */
  const RatioScale: real := 100.0

  // ---------------------------------------------------------------------
  // The bite test

  /** The left-to-right sum of `s`, starting from 0. */
  function Sum(s: seq<real>): real
  {
    if |s| == 0 then 0.0 else Sum(s[..|s| - 1]) + s[|s| - 1]
  }

  function Mean(s: seq<real>): real
    requires |s| > 0
  {
    Sum(s) / |s| as real
  }

  /** The bite criterion: enough history, and a ratio above six times its mean. */
  predicate Significant(cur: real, dists: seq<real>): (bite: bool)
    ensures bite ==> |dists| >= MinDistanceCount
    ensures bite && Sum(dists) >= 0.0 ==> cur > 0.0
  {
    |dists| >= MinDistanceCount && cur > Mean(dists) * BiteFactor
  }

  /** Sums the log in a loop, divides by its length and compares. `dists` is a value and stays as it was. */
  method IsSomethingHappened(cur: real, dists: seq<real>) returns (happened: bool)
    ensures happened == Significant(cur, dists)
  {
    if |dists| < MinDistanceCount {
      return false;
    }
    var average := 0.0;
    for i := 0 to |dists|
      invariant average == Sum(dists[..i])
    {
      assert dists[..i + 1][..i] == dists[..i];
      average := average + dists[i];
    }
    assert dists[..|dists|] == dists;
    average := average / |dists| as real;
    happened := cur > average * BiteFactor;
  }

  /** A short log never signals a bite, however large the ratio. */
  lemma TooFewNeverSignificant(cur: real, dists: seq<real>)
    requires |dists| < MinDistanceCount
    ensures !Significant(cur, dists)
  {
  }

  lemma ScaledComparison(cur: real, sum: real, n: real)
    requires n > 0.0
    ensures cur > sum / n * 6.0 <==> cur * n > 6.0 * sum
  {
  }

  /** With enough history the test is the division-free `cur * n > 6 * sum`. */
  lemma SignificantIff(cur: real, dists: seq<real>)
    requires |dists| >= MinDistanceCount
    ensures Significant(cur, dists) <==> cur * |dists| as real > BiteFactor * Sum(dists)
  {
    ScaledComparison(cur, Sum(dists), |dists| as real);
  }

  /** A larger ratio against the same log is at least as significant. */
  lemma SignificantMonotone(cur: real, larger: real, dists: seq<real>)
    requires Significant(cur, dists) && larger > cur
    ensures Significant(larger, dists)
  {
  }

  lemma SignificantExamples()
    ensures Significant(7.0, [1.0, 1.0, 1.0, 1.0, 1.0])
    ensures !Significant(6.0, [1.0, 1.0, 1.0, 1.0, 1.0])
    ensures Significant(15.0, [2.0, 2.0, 2.0, 2.0, 2.0])
    ensures !Significant(100.0, [1.0, 1.0, 1.0, 1.0])
  {
    assert Sum([1.0, 1.0, 1.0, 1.0, 1.0]) == 5.0 by {
      assert [1.0, 1.0, 1.0, 1.0, 1.0][..4] == [1.0, 1.0, 1.0, 1.0];
      assert [1.0, 1.0, 1.0, 1.0][..3] == [1.0, 1.0, 1.0];
      assert [1.0, 1.0, 1.0][..2] == [1.0, 1.0];
      assert [1.0, 1.0][..1] == [1.0];
      assert [1.0][..0] == [];
    }
    assert Sum([2.0, 2.0, 2.0, 2.0, 2.0]) == 10.0 by {
      assert [2.0, 2.0, 2.0, 2.0, 2.0][..4] == [2.0, 2.0, 2.0, 2.0];
      assert [2.0, 2.0, 2.0, 2.0][..3] == [2.0, 2.0, 2.0];
      assert [2.0, 2.0, 2.0][..2] == [2.0, 2.0];
      assert [2.0, 2.0][..1] == [2.0];
      assert [2.0][..0] == [];
    }
  }

  // ---------------------------------------------------------------------
  // The click point of the pull

  /** Python's `int()` on a float: truncation toward zero. */
  function Trunc(r: real): (t: int)
    ensures 0.0 <= r ==> 0 <= t && t as real <= r < t as real + 1.0
    ensures r < 0.0 ==> t <= 0 && t as real - 1.0 < r <= t as real
  {
    if r >= 0.0 then r.Floor else -((-r).Floor)
  }

  datatype Click = Click(x: int, y: int)

  /** Where the pull clicks, in client coordinates: the truncated center, 32 pixels higher. */
  function ClickPoint(box: Rect): (c: Click)
    ensures c.x == Trunc((box.x1 + box.x2) / 2.0)
    ensures c.y == Trunc((box.y1 + box.y2) / 2.0) - ClickYOffset
  {
    var center := box.Center();
    Click(Trunc(center.x), Trunc(center.y) - ClickYOffset)
  }

  lemma ClickPointExamples()
    ensures ClickPoint(Rect(100.0, 104.0, 120.0, 144.0)) == Click(110, 92)
    ensures ClickPoint(Rect(-5.0, 0.0, 0.0, 5.0)) == Click(-2, -30)
  {
  }

  // ---------------------------------------------------------------------
  // One iteration of the sampling loop, as a function on values

  /** What the loop sees in one iteration: the time and the first detected box, if any. */
  datatype Frame = Frame(now: real, detected: Option<Rect>)

  /**
   * How an iteration ends: the loop goes on, it gives up without a pull, it
   * pulls at a click point, or the ratio division fails.
   */
  datatype Outcome = Continue | TimedOut | Pulled(click: Click) | ZeroDivision

  /** The loop's state: the previous record (time and box) and the ratio log. */
  datatype CycleState = CycleState(prevAt: real, prevBox: Rect, log: seq<real>)

  /**
   * The state at the top of the loop. A fresh record's timestamp is the
   * moment the class was loaded, not the start of the cycle, and its box is
   * the all-zero sentinel.
   */
  function InitialState(loadedAt: real): (s: CycleState)
    ensures s.prevAt == loadedAt && s.prevBox.IsEmpty() && |s.log| == 0
  {
    CycleState(loadedAt, Sentinel, [])
  }

  /**
   * The vertical distance ratio between two boxes: the distance between
   * their centers as a percentage of the union's height. `None` when the
   * union has zero width or zero height, where the horizontal or the
   * vertical division fails.
   */
  function DistanceRatio(prev: Rect, cur: Rect, sqrt: real -> real): (r: Option<real>)
    ensures r.None? <==> prev.Union(cur).Width() == 0.0 || prev.Union(cur).Height() == 0.0
  {
    var union := prev.Union(cur);
    if union.Width() == 0.0 || union.Height() == 0.0 then None
    else Some(Percent(DistFrom(prev.Center(), cur.Center(), sqrt), union.Height()))
  }

  /** `d` as a percentage of `h`. */
  function Percent(d: real, h: real): real
    requires h != 0.0
  {
    d / h * RatioScale
  }

  /** One iteration of the sampling loop: the new state and how the iteration ended. */
  function Transition(s: CycleState, f: Frame, sqrt: real -> real): (r: (CycleState, Outcome))
    ensures r.0 == s || (r.1 == Continue && f.detected == Some(r.0.prevBox) && r.0.prevAt == f.now
                         && s.log <= r.0.log && |r.0.log| == |s.log| + 1)
    ensures r.1.TimedOut? ==> f.detected.None? && f.now - s.prevAt >= TimeoutSeconds
    ensures r.1.Pulled? ==> f.detected.Some? && |s.log| >= MinDistanceCount
    ensures r.1.ZeroDivision? ==> f.detected.Some?
  {
    match f.detected
    case None =>
      if f.now - s.prevAt >= TimeoutSeconds then (s, TimedOut) else (s, Continue)
    case Some(box) =>
      match DistanceRatio(s.prevBox, box, sqrt)
      case None => (s, ZeroDivision)
      case Some(r) =>
        if Significant(r, s.log) then (s, Pulled(ClickPoint(box)))
        else (CycleState(f.now, box, s.log + [r]), Continue)
  }

  /** Every logged ratio is one that did not signal a bite against the ratios before it. */
  ghost predicate NoneTriggered(log: seq<real>)
  {
    forall i :: 0 <= i < |log| ==> !Significant(log[i], log[..i])
  }

  // ---------------------------------------------------------------------
  // Properties of one iteration

  /**
   * A previous box centered at the origin makes the receiver of `Point.dist`
   * take the current center, so the ratio is 0 whenever it is defined.
   */
  lemma RatioFromOriginCenter(prev: Rect, cur: Rect, sqrt: real -> real)
    requires IsSquareRoot(sqrt) && prev.Center() == Origin
    ensures DistanceRatio(prev, cur, sqrt) == None || DistanceRatio(prev, cur, sqrt) == Some(0.0)
  {
    DistFromCases(prev.Center(), cur.Center(), sqrt);
  }

  /** The first detection of a cycle is compared with the all-zero default box, so its ratio is 0 or undefined. */
  lemma RatioAgainstSentinel(cur: Rect, sqrt: real -> real)
    requires IsSquareRoot(sqrt)
    ensures DistanceRatio(Sentinel, cur, sqrt) == None || DistanceRatio(Sentinel, cur, sqrt) == Some(0.0)
  {
    RatioFromOriginCenter(Sentinel, cur, sqrt);
  }

  lemma RatioOfSameBox(box: Rect, sqrt: real -> real)
    requires IsSquareRoot(sqrt)
    ensures DistanceRatio(box, box, sqrt) == None || DistanceRatio(box, box, sqrt) == Some(0.0)
  {
    DistanceToSelf(box.Center(), sqrt);
  }

  lemma PercentNonNegative(d: real, h: real)
    requires d >= 0.0 && h > 0.0
    ensures Percent(d, h) >= 0.0
  {
  }

  /** When the union's height is positive, the ratio is never negative. */
  lemma RatioNonNegative(prev: Rect, cur: Rect, sqrt: real -> real)
    requires IsSquareRoot(sqrt) && prev.Union(cur).Height() > 0.0
    ensures DistanceRatio(prev, cur, sqrt).Some? ==> DistanceRatio(prev, cur, sqrt).value >= 0.0
  {
    if DistanceRatio(prev, cur, sqrt).Some? {
      var d := DistFrom(prev.Center(), cur.Center(), sqrt);
      var h := prev.Union(cur).Height();
      DistFromCases(prev.Center(), cur.Center(), sqrt);
      PercentNonNegative(d, h);
      assert DistanceRatio(prev, cur, sqrt).value == Percent(d, h);
    }
  }

  /** Without a detection nothing changes, and the cycle ends exactly when the last record is 3 seconds old. */
  lemma StepWithoutDetection(s: CycleState, now: real, sqrt: real -> real)
    ensures Transition(s, Frame(now, None), sqrt).0 == s
    ensures Transition(s, Frame(now, None), sqrt).1 == TimedOut <==> now - s.prevAt >= TimeoutSeconds
    ensures Transition(s, Frame(now, None), sqrt).1 in {TimedOut, Continue}
  {
  }

  /**
   * With a detection, exactly one of: the division fails and nothing
   * changes; the pull fires at the box's click point and the log is
   * untouched; or the ratio, which did not signal a bite, is appended and the
   * detection becomes the previous record.
   */
  lemma StepWithDetection(s: CycleState, now: real, box: Rect, sqrt: real -> real)
    ensures var (t, o) := Transition(s, Frame(now, Some(box)), sqrt);
      var ratio := DistanceRatio(s.prevBox, box, sqrt);
      || (ratio == None && o == ZeroDivision && t == s)
      || (ratio.Some? && Significant(ratio.value, s.log) && o == Pulled(ClickPoint(box)) && t == s)
      || (ratio.Some? && !Significant(ratio.value, s.log) && o == Continue
          && t == CycleState(now, box, s.log + [ratio.value]))
  {
  }

  /** An iteration with a detection fails exactly when the union of the two boxes has zero width or zero height. */
  lemma ZeroDivisionIff(s: CycleState, now: real, box: Rect, sqrt: real -> real)
    ensures Transition(s, Frame(now, Some(box)), sqrt).1 == ZeroDivision
      <==> s.prevBox.Union(box).Width() == 0.0 || s.prevBox.Union(box).Height() == 0.0
  {
  }

  /** A pull needs at least five ratios already logged in this cycle. */
  lemma PullNeedsFullLog(s: CycleState, f: Frame, sqrt: real -> real)
    requires Transition(s, f, sqrt).1.Pulled?
    ensures |s.log| >= MinDistanceCount
    ensures f.detected.Some? && Transition(s, f, sqrt).1.click == ClickPoint(f.detected.value)
  {
  }

  lemma AppendKeepsNoneTriggered(log: seq<real>, r: real)
    requires NoneTriggered(log) && !Significant(r, log)
    ensures NoneTriggered(log + [r])
  {
    var extended := log + [r];
    forall i | 0 <= i < |extended|
      ensures !Significant(extended[i], extended[..i])
    {
      if i < |log| {
        assert extended[..i] == log[..i];
      } else {
        assert extended[..i] == log;
      }
    }
  }

  /** The log only grows by ratios that did not trigger, so every logged ratio is a non-bite. */
  lemma TransitionKeepsNoneTriggered(s: CycleState, f: Frame, sqrt: real -> real)
    requires NoneTriggered(s.log)
    ensures NoneTriggered(Transition(s, f, sqrt).0.log)
  {
    if f.detected.Some? {
      var ratio := DistanceRatio(s.prevBox, f.detected.value, sqrt);
      if ratio.Some? && !Significant(ratio.value, s.log) {
        AppendKeepsNoneTriggered(s.log, ratio.value);
      }
    }
  }

  /** The first frame of a cycle without a detection ends it whenever 3 seconds have passed since loading. */
  lemma StaleTimestampTimesOut(loadedAt: real, now: real, sqrt: real -> real)
    requires now >= loadedAt + TimeoutSeconds
    ensures Transition(InitialState(loadedAt), Frame(now, None), sqrt).1 == TimedOut
  {
  }

  // ---------------------------------------------------------------------
  // A whole cycle over a finite sequence of frames

  /**
   * Runs iterations until one ends the cycle or the frames run out; in the
   * latter case the outcome is `Continue`.
   */
  function RunFrom(s: CycleState, frames: seq<Frame>, sqrt: real -> real): (r: (CycleState, Outcome))
    ensures |frames| == 0 ==> r == (s, Continue)
    ensures r.1 != Continue ==> |frames| > 0
    ensures r.1 == Continue ==> s.log <= r.0.log
    decreases |frames|
  {
    if |frames| == 0 then (s, Continue)
    else
      var (t, o) := Transition(s, frames[0], sqrt);
      if o == Continue then RunFrom(t, frames[1..], sqrt) else (t, o)
  }

  /** Over a whole run the old log is a prefix of the new one, which grows by at most one ratio per frame. */
  lemma {:induction false} RunExtendsLog(s: CycleState, frames: seq<Frame>, sqrt: real -> real)
    ensures s.log <= RunFrom(s, frames, sqrt).0.log
    ensures |RunFrom(s, frames, sqrt).0.log| <= |s.log| + |frames|
    decreases |frames|
  {
    if |frames| > 0 {
      var (t, o) := Transition(s, frames[0], sqrt);
      if o == Continue {
        RunExtendsLog(t, frames[1..], sqrt);
      }
    }
  }

  lemma {:induction false} RunKeepsNoneTriggered(s: CycleState, frames: seq<Frame>, sqrt: real -> real)
    requires NoneTriggered(s.log)
    ensures NoneTriggered(RunFrom(s, frames, sqrt).0.log)
    decreases |frames|
  {
    if |frames| > 0 {
      TransitionKeepsNoneTriggered(s, frames[0], sqrt);
      var (t, o) := Transition(s, frames[0], sqrt);
      if o == Continue {
        RunKeepsNoneTriggered(t, frames[1..], sqrt);
      }
    }
  }

  /** A pull needs the logged ratios plus the frames of the run to number at least six. */
  lemma {:induction false} RunPullNeedsFrames(s: CycleState, frames: seq<Frame>, sqrt: real -> real)
    requires RunFrom(s, frames, sqrt).1.Pulled?
    ensures |s.log| + |frames| >= MinDistanceCount + 1
    decreases |frames|
  {
    var (t, o) := Transition(s, frames[0], sqrt);
    if o == Continue {
      assert |t.log| <= |s.log| + 1;
      RunPullNeedsFrames(t, frames[1..], sqrt);
    } else {
      PullNeedsFullLog(s, frames[0], sqrt);
    }
  }

  /** From the start of a cycle, no pull happens before the sixth frame. */
  lemma CyclePullNeedsSixFrames(loadedAt: real, frames: seq<Frame>, sqrt: real -> real)
    requires RunFrom(InitialState(loadedAt), frames, sqrt).1.Pulled?
    ensures |frames| >= MinDistanceCount + 1
  {
    RunPullNeedsFrames(InitialState(loadedAt), frames, sqrt);
  }

  /** While the log is short, any computable ratio is logged and the detection becomes the previous record. */
  lemma ShortLogStep(s: CycleState, now: real, box: Rect, sqrt: real -> real, r: real)
    requires DistanceRatio(s.prevBox, box, sqrt) == Some(r) && |s.log| < MinDistanceCount
    ensures Transition(s, Frame(now, Some(box)), sqrt) == (CycleState(now, box, s.log + [r]), Continue)
  {
  }

  /** A computable ratio that signals a bite fires the pull at the detected box and leaves the state alone. */
  lemma BiteStep(s: CycleState, now: real, box: Rect, sqrt: real -> real, r: real)
    requires DistanceRatio(s.prevBox, box, sqrt) == Some(r) && Significant(r, s.log)
    ensures Transition(s, Frame(now, Some(box)), sqrt) == (s, Pulled(ClickPoint(box)))
  {
  }

  /** The ratio once the union's sides and the centers' distance are known. */
  lemma RatioFromParts(prev: Rect, cur: Rect, sqrt: real -> real, d: real, w: real, h: real)
    requires prev.Union(cur).Width() == w && prev.Union(cur).Height() == h && w != 0.0 && h != 0.0
    requires DistFrom(prev.Center(), cur.Center(), sqrt) == d
    ensures DistanceRatio(prev, cur, sqrt) == Some(Percent(d, h))
  {
  }

  lemma PercentPositive(d: real, h: real)
    requires d > 0.0 && h > 0.0
    ensures Percent(d, h) > 0.0
  {
  }

  /** `box` moved down the screen by `dy`. */
  function Shifted(box: Rect, dy: real): (moved: Rect)
    ensures moved.Width() == box.Width() && moved.Height() == box.Height()
    ensures moved.Center() == Coord(box.Center().x, box.Center().y + dy)
  {
    Rect(box.x1, box.y1 + dy, box.x2, box.y2 + dy)
  }

  /** A box of positive size, seen first or seen again in the same place, has a ratio of 0. */
  lemma StillRatio(prev: Rect, box: Rect, sqrt: real -> real)
    requires IsSquareRoot(sqrt) && box.Width() > 0.0 && box.Height() > 0.0
    requires prev == Sentinel || prev == box
    ensures DistanceRatio(prev, box, sqrt) == Some(0.0)
  {
    if prev == Sentinel {
      UnionGrows(Sentinel, box);
      RatioAgainstSentinel(box, sqrt);
    } else {
      UnionIdempotent(box);
      RatioOfSameBox(box, sqrt);
    }
  }

  /**
   * A box whose center is not the origin, moved down by `dy > 0`, gives a
   * positive ratio: `dy` as a percentage of the union's height.
   */
  lemma DipRatio(box: Rect, dy: real, sqrt: real -> real)
    requires IsSquareRoot(sqrt) && box.Width() > 0.0 && box.Height() > 0.0 && dy > 0.0
    requires box.Center() != Origin
    ensures DistanceRatio(box, Shifted(box, dy), sqrt) == Some(Percent(dy, box.Height() + dy))
    ensures Percent(dy, box.Height() + dy) > 0.0
  {
    var moved := Shifted(box, dy);
    assert box.Union(moved) == Rect(box.x1, box.y1, box.x2, box.y2 + dy);
    DistanceAlongAxis(box.Center(), dy, sqrt);
    RatioFromParts(box, moved, sqrt, dy, box.Width(), box.Height() + dy);
    PercentPositive(dy, box.Height() + dy);
  }

  /** Any positive ratio is a bite against five zero ratios. */
  lemma BiteAfterStillLog(r: real)
    requires r > 0.0
    ensures Significant(r, [0.0, 0.0, 0.0, 0.0, 0.0])
  {
    var zeros := [0.0, 0.0, 0.0, 0.0, 0.0];
    assert Sum(zeros) == 0.0 by {
      assert zeros[..4] == [0.0, 0.0, 0.0, 0.0];
      assert [0.0, 0.0, 0.0, 0.0][..3] == [0.0, 0.0, 0.0];
      assert [0.0, 0.0, 0.0][..2] == [0.0, 0.0];
      assert [0.0, 0.0][..1] == [0.0];
      assert [0.0][..0] == [];
    }
  }

  /** A run whose first iteration continues is the run of the rest from the new state. */
  lemma RunContinues(s: CycleState, frames: seq<Frame>, sqrt: real -> real, t: CycleState)
    requires |frames| > 0 && Transition(s, frames[0], sqrt) == (t, Continue)
    ensures RunFrom(s, frames, sqrt) == RunFrom(t, frames[1..], sqrt)
  {
  }

  /** While the log is short, a frame showing a still box logs a 0 and the run goes on. */
  lemma StillFrame(s: CycleState, frames: seq<Frame>, box: Rect, sqrt: real -> real)
    requires IsSquareRoot(sqrt) && box.Width() > 0.0 && box.Height() > 0.0
    requires (s.prevBox == Sentinel || s.prevBox == box) && |s.log| < MinDistanceCount
    requires |frames| > 0 && frames[0].detected == Some(box)
    ensures RunFrom(s, frames, sqrt) == RunFrom(CycleState(frames[0].now, box, s.log + [0.0]), frames[1..], sqrt)
  {
    StillRatio(s.prevBox, box, sqrt);
    ShortLogStep(s, frames[0].now, box, sqrt, 0.0);
    RunContinues(s, frames, sqrt, CycleState(frames[0].now, box, s.log + [0.0]));
  }

  /** After five zero ratios of a still box, a frame with the box moved down pulls at the moved box. */
  lemma DipFrame(s: CycleState, now: real, box: Rect, dy: real, sqrt: real -> real)
    requires IsSquareRoot(sqrt) && box.Width() > 0.0 && box.Height() > 0.0 && dy > 0.0 && box.Center() != Origin
    requires s.prevBox == box && s.log == [0.0, 0.0, 0.0, 0.0, 0.0]
    ensures RunFrom(s, [Frame(now, Some(Shifted(box, dy)))], sqrt) == (s, Pulled(ClickPoint(Shifted(box, dy))))
  {
    DipRatio(box, dy, sqrt);
    BiteAfterStillLog(Percent(dy, box.Height() + dy));
    BiteStep(s, now, Shifted(box, dy), sqrt, Percent(dy, box.Height() + dy));
  }

  /** Five frames of a still box followed by a frame of the same box moved down by `dy`. */
  function StillThenDip(times: seq<real>, box: Rect, dy: real): (frames: seq<Frame>)
    requires |times| == MinDistanceCount + 1
    ensures |frames| == |times|
    ensures forall k :: 0 <= k < MinDistanceCount ==> frames[k] == Frame(times[k], Some(box))
    ensures frames[MinDistanceCount] == Frame(times[MinDistanceCount], Some(Shifted(box, dy)))
  {
    seq(|times|, k requires 0 <= k < |times| =>
      Frame(times[k], Some(if k < MinDistanceCount then box else Shifted(box, dy))))
  }

  /**
   * A cycle that sees a box of positive size (centered anywhere but the
   * origin) five times in the same place and then moved down by any `dy > 0`
   * pulls on the sixth frame, at the click point of the moved box, with five
   * zero ratios logged.
   */
  lemma StillThenDipPulls(loadedAt: real, times: seq<real>, box: Rect, dy: real, sqrt: real -> real)
    requires IsSquareRoot(sqrt) && |times| == MinDistanceCount + 1
    requires box.Width() > 0.0 && box.Height() > 0.0 && dy > 0.0 && box.Center() != Origin
    ensures RunFrom(InitialState(loadedAt), StillThenDip(times, box, dy), sqrt)
      == (CycleState(times[4], box, [0.0, 0.0, 0.0, 0.0, 0.0]), Pulled(ClickPoint(Shifted(box, dy))))
  {
    var frames := StillThenDip(times, box, dy);
    var s0 := InitialState(loadedAt);
    var s1 := CycleState(times[0], box, [0.0]);
    var s2 := CycleState(times[1], box, [0.0, 0.0]);
    var s3 := CycleState(times[2], box, [0.0, 0.0, 0.0]);
    assert RunFrom(s0, frames, sqrt) == RunFrom(s1, frames[1..], sqrt) by {
      StillFrame(s0, frames, box, sqrt);
      assert s0.log + [0.0] == s1.log;
    }
    assert RunFrom(s1, frames[1..], sqrt) == RunFrom(s2, frames[2..], sqrt) by {
      assert frames[1..][0] == frames[1] && frames[1..][1..] == frames[2..];
      StillFrame(s1, frames[1..], box, sqrt);
      assert s1.log + [0.0] == s2.log;
    }
    assert RunFrom(s2, frames[2..], sqrt) == RunFrom(s3, frames[3..], sqrt) by {
      assert frames[2..][0] == frames[2] && frames[2..][1..] == frames[3..];
      StillFrame(s2, frames[2..], box, sqrt);
      assert s2.log + [0.0] == s3.log;
    }
    assert RunFrom(s3, frames[3..], sqrt)
      == (CycleState(times[4], box, [0.0, 0.0, 0.0, 0.0, 0.0]), Pulled(ClickPoint(Shifted(box, dy)))) by {
      LastThreeFrames(s3, frames[3..], times[3], times[4], times[5], box, dy, sqrt);
    }
  }

  /** The last three frames of `StillThenDip`, from the state after three still frames. */
  lemma LastThreeFrames(s3: CycleState, rest: seq<Frame>, t3: real, t4: real, t5: real, box: Rect, dy: real,
                        sqrt: real -> real)
    requires IsSquareRoot(sqrt) && box.Width() > 0.0 && box.Height() > 0.0 && dy > 0.0 && box.Center() != Origin
    requires s3.prevBox == box && s3.log == [0.0, 0.0, 0.0]
    requires rest == [Frame(t3, Some(box)), Frame(t4, Some(box)), Frame(t5, Some(Shifted(box, dy)))]
    ensures RunFrom(s3, rest, sqrt) == (CycleState(t4, box, [0.0, 0.0, 0.0, 0.0, 0.0]), Pulled(ClickPoint(Shifted(box, dy))))
  {
    var s4 := CycleState(t3, box, [0.0, 0.0, 0.0, 0.0]);
    var s5 := CycleState(t4, box, [0.0, 0.0, 0.0, 0.0, 0.0]);
    assert RunFrom(s3, rest, sqrt) == RunFrom(s4, rest[1..], sqrt) by {
      StillFrame(s3, rest, box, sqrt);
      assert s3.log + [0.0] == s4.log;
    }
    assert RunFrom(s4, rest[1..], sqrt) == RunFrom(s5, rest[2..], sqrt) by {
      assert rest[1..][0] == rest[1] && rest[1..][1..] == rest[2..];
      StillFrame(s4, rest[1..], box, sqrt);
      assert s4.log + [0.0] == s5.log;
    }
    assert rest[2..] == [Frame(t5, Some(Shifted(box, dy)))];
    DipFrame(s5, t5, box, dy, sqrt);
  }

  // ---------------------------------------------------------------------
  // The objects of the loop

  /** A detection record: when the bobber was seen and where. */
  class BobberInfo {
    var at: real
    var box: Rect

    /**
     * A record made without a detection. Its fields are the class-level
     * defaults: the time the class was loaded and the all-zero box.
     */
    constructor (loadedAt: real)
      ensures at == loadedAt && box == Sentinel
    {
      at := loadedAt;
      box := Sentinel;
    }

    /** Records a detection of `box` at time `now`. */
    method Init(box: Rect, now: real)
      modifies this
      ensures this.at == now && this.box == box
    {
      this.at := now;
      this.box := box;
    }
  }

  /** The sampling loop of one cycle: the previous record and the log of ratios. */
  class FishingCycle {
    const loadedAt: real
    var prev: BobberInfo
    var distLog: seq<real>

    /** The loop's invariant: no logged ratio signalled a bite when it was logged. */
    ghost predicate Valid()
      reads this
    {
      NoneTriggered(distLog)
    }

    function State(): CycleState
      reads this, prev
    {
      CycleState(prev.at, prev.box, distLog)
    }

    /** A cycle starts from a default record and an empty log. */
    constructor (loadedAt: real)
      ensures this.loadedAt == loadedAt
      ensures State() == InitialState(loadedAt) && Valid()
    {
      this.loadedAt := loadedAt;
      prev := new BobberInfo(loadedAt);
      distLog := [];
    }

    /**
     * One iteration of the loop on frame `f`. The new state and the outcome
     * are those of `Transition`, and the log keeps holding only non-bites.
     */
    method Step(f: Frame, sqrt: real -> real) returns (o: Outcome)
      requires IsSquareRoot(sqrt) && Valid()
      modifies this
      ensures Valid()
      ensures (State(), o) == Transition(old(State()), f, sqrt)
    {
      ghost var before := State();
      TransitionKeepsNoneTriggered(before, f, sqrt);
      var cur := new BobberInfo(loadedAt);
      match f.detected {
        case None =>
          if f.now - prev.at >= TimeoutSeconds {
            o := TimedOut;
          } else {
            o := Continue;
          }
        case Some(detected) =>
          cur.Init(detected, f.now);
          var prevBox := prev.box;
          var curBox := cur.box;
          var union := prevBox.Union(curBox);
          var from := new Point(prevBox.Center().x, prevBox.Center().y);
          var to := new Point(curBox.Center().x, curBox.Center().y);
          var dist := from.Dist(to, sqrt);
          assert prevBox == before.prevBox && curBox == detected;
          assert dist == DistFrom(prevBox.Center(), curBox.Center(), sqrt);
          if union.Width() == 0.0 || union.Height() == 0.0 {
            assert DistanceRatio(prevBox, curBox, sqrt) == None;
            return ZeroDivision;
          }
          var ratio := Percent(dist, union.Height());
          assert DistanceRatio(prevBox, curBox, sqrt) == Some(ratio);
          var happened := IsSomethingHappened(ratio, distLog);
          if happened {
            BiteStep(before, f.now, curBox, sqrt, ratio);
            return Pulled(ClickPoint(curBox));
          }
          distLog := distLog + [ratio];
          prev := cur;
          o := Continue;
      }
    }
  }

  /**
   * A cycle's sampling loop over a finite sequence of frames: it stops at the
   * first iteration that does not continue, and its outcome is that of
   * `RunFrom` from the initial state.
   */
  method RunFishingCycle(loadedAt: real, frames: seq<Frame>, sqrt: real -> real) returns (o: Outcome)
    requires IsSquareRoot(sqrt)
    ensures o == RunFrom(InitialState(loadedAt), frames, sqrt).1
  {
    var cycle := new FishingCycle(loadedAt);
    var i := 0;
    o := Continue;
    while i < |frames| && o == Continue
      invariant 0 <= i <= |frames|
      invariant cycle.Valid()
      invariant o == Continue ==> RunFrom(cycle.State(), frames[i..], sqrt) == RunFrom(InitialState(loadedAt), frames, sqrt)
      invariant o != Continue ==> o == RunFrom(InitialState(loadedAt), frames, sqrt).1
      decreases |frames| - i
    {
      assert frames[i..][0] == frames[i] && frames[i..][1..] == frames[i + 1..];
      o := cycle.Step(frames[i], sqrt);
      i := i + 1;
    }
  }
}
