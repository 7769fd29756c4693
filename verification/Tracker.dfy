/** Lane and stop-line tracking, from the line positions that image analysis found in a frame. */
module Tracker {

  datatype Point = Point(x: int, y: int)

  // A line segment, from s to e.
  datatype Line = Line(s: Point, e: Point)

  /** What one camera frame yields. The x and y positions are -1 if there is none; `garbage` is the
      lane width variable before it is set. */
  datatype Frame = Frame(right: seq<Line>, left: seq<Line>, rightX: int, leftX: int, garbage: int, stopY: int)

  datatype Opt = Opt(ignoreRight: bool, ignoreLeft: bool, ignoreStop: bool)

  const NO_OPT := Opt(false, false, false)

  datatype Result = Result(laneOffset: real, stopDist: real, stopVisible: bool, stopPassed: bool,
                           rightVisible: bool, leftVisible: bool)

  const THRESH_STOP_VIS := 10

  /** The frame size the camera settled on, and the constants derived from it. */
  datatype Size = Size(width: int, height: int) {
    const maskWidthTop: int := 55 * width / 100
    const maskEndY: int := height / 2
    const laneCenter: int := 48 * width / 100
    const maxLaneError: int := 2 * width / 5
    const laneWidthMin: int := 45 * width / 100
    const laneWidthMax: int := 3 * width / 4

    /** y lies in the top part of the mask, where a line has to show up first. */
    predicate NearTop(y: int) { 5 * (y - maskEndY) < height }

    /** y lies below the mask. */
    predicate BelowMask(y: int) { 10 * y > 9 * height }
  }

  // A frame has at least one row, and enough columns for a non-zero lane error.
  type Camera = c: Size | c.width >= 3 && c.height >= 1 witness Size(256, 144)

  /** The constants for the default frame size. */
  lemma UsualConstants()
    ensures var c: Camera := Size(256, 144);
      && c.maskWidthTop == 140 && c.maskEndY == 72 && c.laneCenter == 122 && c.maxLaneError == 102
      && c.laneWidthMin == 115 && c.laneWidthMax == 192 && THRESH_STOP_VIS == 10
  {
  }

  function Max(a: int, b: int): int { if a > b then a else b }

  function Min(a: int, b: int): int { if a < b then a else b }

  function Clamp(lo: int, v: int, hi: int): int { Min(Max(lo, v), hi) }

  /** Integer division that truncates towards zero. */
  function Quot(a: int, b: int): int
    requires b != 0
  {
    if a >= 0 then a / b else -((-a) / b)
  }

  datatype State = State(lane: Point, laneDir: Point, laneWidth: int, stop: Point, stopDir: Point,
                         stopDiff: int, stopVis: int, stopValid: bool, opt: Opt)

  function Reset(c: Camera): State {
    State(Point(c.laneCenter, c.height / 2), Point(0, -1), 4 * c.width / 5,
          Point(c.laneCenter, c.maskWidthTop), Point(1, 0), 0, 0, false, NO_OPT)
  }

  // ---------------------------------------------------------------------------
  // One frame, as a function
  // ---------------------------------------------------------------------------

  function LaneWidth(c: Camera, f: Frame): int {
    Clamp(c.laneWidthMin, if f.rightX != -1 && f.leftX != -1 then f.rightX - f.leftX else f.garbage, c.laneWidthMax)
  }

  function LaneX(c: Camera, t: State, f: Frame): int {
    var x :=
      if f.rightX != -1 && f.leftX != -1 then Quot(f.rightX + f.leftX, 2)
      else if f.rightX != -1 then f.rightX - Quot(LaneWidth(c, f), 2)
      else if f.leftX != -1 then f.leftX + Quot(LaneWidth(c, f), 2)
      else if t.opt.ignoreRight then c.laneCenter - c.maxLaneError
      else if t.opt.ignoreLeft then c.laneCenter + c.maxLaneError
      else t.lane.x;
    Clamp(c.laneCenter - c.maxLaneError, x, c.laneCenter + c.maxLaneError)
  }

  /** The sum of the lines, each taken upwards. */
  function Upwards(lines: seq<Line>): Point {
    if lines == [] then
      Point(0, 0)
    else
      WithLine(Upwards(lines[..|lines| - 1]), lines[|lines| - 1])
  }

  /** The sum with one more line, taken upwards. */
  function WithLine(sum: Point, l: Line): Point {
    if l.e.y < l.s.y then Point(sum.x + l.e.x - l.s.x, sum.y + l.e.y - l.s.y)
    else Point(sum.x + l.s.x - l.e.x, sum.y + l.s.y - l.e.y)
  }

  /** Lane and stop-line direction. */
  function Directions(c: Camera, t: State, f: Frame): (Point, Point) {
    var sum := Upwards(f.right + f.left);
    var (laneDir, stopDir) :=
      if f.right == [] && f.left == [] then (t.laneDir, t.stopDir)
      else (Point(sum.x, 3 * sum.y), Point(Quot(-3 * sum.y, 2), Quot(sum.x, 2)));
    (if laneDir.y == 0 then Point(0, -c.height) else laneDir, stopDir)
  }

  /** Whether the frame turns an unconfirmed line into a confirmed one. */
  predicate Validates(c: Camera, t: State, f: Frame) {
    !t.stopValid && f.stopY != -1 && c.NearTop(f.stopY)
  }

  /** The line as seen, or as expected from its last movement, or gone. */
  function Sighting(c: Camera, t: State, f: Frame): (s: State)
    ensures s == t.(stop := s.stop, stopDiff := s.stopDiff, stopVis := s.stopVis, stopValid := s.stopValid)
  {
    if f.stopY != -1 then
      t.(stop := Point(t.stop.x, f.stopY), stopDiff := Max(t.stop.y - f.stopY, 0), stopVis := t.stopVis + 1,
         stopValid := t.stopValid || c.NearTop(f.stopY))
    else if t.stopVis - 1 > THRESH_STOP_VIS then
      t.(stop := Point(t.stop.x, t.stop.y + t.stopDiff), stopVis := t.stopVis - 1)
    else
      t.(stop := Point(t.stop.x, c.maskEndY), stopVis := t.stopVis - 1, stopValid := false)
  }

  /** Whether the line leaves the mask at the bottom: the car has passed it. */
  predicate Passes(c: Camera, t: State, f: Frame) {
    var s := Sighting(c, t, f);
    s.stopValid && c.BelowMask(s.stop.y)
  }

  function Track(c: Camera, t: State, f: Frame): State {
    var s := Sighting(c, t, f);
    var lost := s.stop.y < c.maskEndY || c.BelowMask(s.stop.y);
    s.(stop := Point(s.stop.x, if lost then c.maskEndY else s.stop.y),
       stopDiff := if lost then 0 else s.stopDiff,
       stopVis := Clamp(0, if lost then 0 else s.stopVis, 2 * THRESH_STOP_VIS),
       stopValid := s.stopValid && !c.BelowMask(s.stop.y))
  }

  /** Where the lane's middle line reaches height y. */
  function StopX(lane: Point, laneDir: Point, y: int): int {
    if laneDir.y == 0 then lane.x else lane.x + Quot(y - lane.y, laneDir.y) * laneDir.x
  }

  function Aim(c: Camera, t: State, f: Frame): State {
    var (laneDir, stopDir) := Directions(c, t, f);
    var x := LaneX(c, t, f);
    t.(lane := Point(x, t.lane.y), laneWidth := LaneWidth(c, f), laneDir := laneDir, stopDir := stopDir,
       stop := Point(StopX(Point(x, t.lane.y), laneDir, t.stop.y), t.stop.y))
  }

  function Process(c: Camera, t: State, f: Frame): State {
    Track(c, Aim(c, t, f), f)
  }

  /** A lane at x, as an offset from the center. */
  function OffsetAt(c: Camera, x: int): real {
    (x - c.laneCenter) as real / c.maxLaneError as real
  }

  /** A line in row y, as a distance. */
  function DistanceAt(c: Camera, y: int): real {
    1.0 - y as real / c.height as real
  }

  function ResultOf(c: Camera, t: State, f: Frame): Result {
    var t' := Process(c, t, f);
    Result(OffsetAt(c, t'.lane.x), DistanceAt(c, t'.stop.y),
           t'.stopValid, Passes(c, t, f), f.right != [], f.left != [])
  }

  // ---------------------------------------------------------------------------
  // The code
  // ---------------------------------------------------------------------------

  class Ip {
    const camera: Camera
    var lane: Point
    var laneDir: Point
    var laneWidth: int
    var stop: Point
    var stopDir: Point
    var stopDiff: int
    var stopVis: int
    var stopValid: bool
    var opt: Opt

    function View(): State
      reads this
    {
      State(lane, laneDir, laneWidth, stop, stopDir, stopDiff, stopVis, stopValid, opt)
    }

    constructor (camera: Camera)
      ensures this.camera == camera && View() == Reset(camera)
    {
      this.camera := camera;
      new;
      IpReset();
    }

    method IpReset()
      modifies this
      ensures View() == Reset(camera)
    {
      lane := Point(camera.laneCenter, camera.height / 2);
      laneDir := Point(0, -1);
      laneWidth := 4 * camera.width / 5;
      stop := Point(camera.laneCenter, camera.maskWidthTop);
      stopDir := Point(1, 0);
      stopDiff := 0;
      stopVis := 0;
      stopValid := false;
      opt := NO_OPT;
    }

    method IpSetOpt(opt: Opt)
      modifies `opt
      ensures this.opt == opt
    {
      this.opt := opt;
    }

    /** Determines width and position of the lane. */
    method FollowLane(f: Frame)
      modifies `lane, `laneWidth
      ensures laneWidth == LaneWidth(camera, f)
      ensures lane == Point(LaneX(camera, old(View()), f), old(lane.y))
    {
      hide Quot;
      var lw := f.garbage;
      if f.rightX != -1 && f.leftX != -1 {
        lw := f.rightX - f.leftX;
      }
      lw := Min(Max(camera.laneWidthMin, lw), camera.laneWidthMax);
      laneWidth := lw;

      var laneX := 0;
      if f.rightX != -1 && f.leftX != -1 {
        laneX := Quot(f.rightX + f.leftX, 2);
      } else if f.rightX != -1 {
        laneX := f.rightX - Quot(laneWidth, 2);
      } else if f.leftX != -1 {
        laneX := f.leftX + Quot(laneWidth, 2);
      } else {
        if opt.ignoreRight {
          laneX := camera.laneCenter - camera.maxLaneError;
        } else if opt.ignoreLeft {
          laneX := camera.laneCenter + camera.maxLaneError;
        } else {
          laneX := lane.x;
        }
      }
      laneX := Min(Max(camera.laneCenter - camera.maxLaneError, laneX), camera.laneCenter + camera.maxLaneError);
      lane := Point(laneX, lane.y);
    }

    /** Determines the direction of the lane. */
    method FollowDirection(f: Frame)
      modifies `laneDir, `stopDir
      ensures (laneDir, stopDir) == Directions(camera, old(View()), f) && laneDir.y != 0
    {
      hide Quot;
      hide Upwards;
      UpwardsOfNone();
      if f.right != [] || f.left != [] {
        var dir := SumUpwards(f.right, [], Point(0, 0));
        assert [] + f.right == f.right;
        dir := SumUpwards(f.left, f.right, dir);
        laneDir := Point(dir.x, 3 * dir.y);
        stopDir := Point(Quot(-laneDir.y, 2), Quot(laneDir.x, 2));
      }
      if laneDir.y == 0 {
        laneDir := Point(0, -camera.height);
      }
    }

    /** Follows the stop line to where it is in this frame. */
    method TrackLine(f: Frame, stopX: int) returns (stoplinePassed: bool)
      requires stop.x == stopX
      modifies `stop, `stopDiff, `stopVis, `stopValid
      ensures View() == Track(camera, old(View()), f)
      ensures stoplinePassed == Passes(camera, old(View()), f)
    {
      stoplinePassed := false;
      var stopY := f.stopY;
      if stopY != -1 {
        stopDiff := Max(stop.y - stopY, 0);
        stopVis := stopVis + 1;
        if !stopValid {
          stopValid := camera.NearTop(stopY);
        }
      } else {
        stopVis := stopVis - 1;
        if stopVis > THRESH_STOP_VIS {
          stopY := stop.y + stopDiff;
        } else {
          stopValid := false;
          stopY := camera.maskEndY;
        }
      }
      if stopY < camera.maskEndY {
        stopY := camera.maskEndY;
        stopDiff := 0;
        stopVis := 0;
      }
      if camera.BelowMask(stopY) {
        stopY := camera.maskEndY;
        stopDiff := 0;
        stopVis := 0;
        if stopValid {
          stopValid := false;
          stoplinePassed := true;
        }
      }
      stop := Point(stopX, stopY);
      stopVis := Min(Max(stopVis, 0), 2 * THRESH_STOP_VIS);
    }

    method IpProcess(f: Frame) returns (res: Result)
      modifies this
      ensures View() == Process(camera, old(View()), f)
      ensures res == ResultOf(camera, old(View()), f)
    {
      PassesAimed(camera, View(), f);
      hide Quot;
      hide Track;
      hide Passes;
      hide LaneX;
      hide LaneWidth;
      hide Upwards;
      FollowLane(f);
      FollowDirection(f);
      var stopX := lane.x + Quot(stop.y - lane.y, laneDir.y) * laneDir.x;
      stop := Point(stopX, stop.y);
      var stoplinePassed := TrackLine(f, stopX);
      res := Result((lane.x - camera.laneCenter) as real / camera.maxLaneError as real,
                    1.0 - stop.y as real / camera.height as real,
                    stopValid, stoplinePassed, f.right != [], f.left != []);
    }
  }

  lemma UpwardsOfNone()
    ensures Upwards([]) == Point(0, 0)
  {
  }

  lemma UpwardsSnoc(before: seq<Line>, lines: seq<Line>, i: nat)
    requires i < |lines|
    ensures Upwards(before + lines[..i + 1]) == WithLine(Upwards(before + lines[..i]), lines[i])
  {
    var all := before + lines[..i + 1];
    assert all[..|all| - 1] == before + lines[..i] && all[|all| - 1] == lines[i];
  }

  method SumUpwards(lines: seq<Line>, ghost before: seq<Line>, start: Point) returns (sum: Point)
    requires start == Upwards(before)
    ensures sum == Upwards(before + lines)
  {
    hide Upwards;
    sum := start;
    assert before + lines[..0] == before;
    for i := 0 to |lines|
      invariant sum == Upwards(before + lines[..i])
    {
      UpwardsSnoc(before, lines, i);
      var s, e := lines[i].s, lines[i].e;
      if e.y < s.y {
        sum := Point(sum.x + e.x - s.x, sum.y + e.y - s.y);
      } else {
        sum := Point(sum.x + s.x - e.x, sum.y + s.y - e.y);
      }
    }
    assert lines[..|lines|] == lines;
  }

  lemma ProcessKeepsOpt(c: Camera, t: State, f: Frame)
    ensures Process(c, t, f).opt == t.opt
  {
  }

  /** Aiming leaves alone what decides whether a line is passed. */
  lemma PassesAimed(c: Camera, t: State, f: Frame)
    ensures Passes(c, t, f) <==> Passes(c, Aim(c, t, f), f)
    ensures Validates(c, t, f) <==> Validates(c, Aim(c, t, f), f)
  {
  }

  // ---------------------------------------------------------------------------
  // What a frame tells, from the frame itself
  // ---------------------------------------------------------------------------

  lemma QuotientTimes(d: real, e: real)
    requires e != 0.0
    ensures d / e * e == d
  {
  }

  lemma SignOfProduct(a: real, q: real)
    requires q > 0.0
    ensures (a > 0.0 <==> a * q > 0.0) && (a < 0.0 <==> a * q < 0.0) && (a == 0.0 <==> a * q == 0.0)
  {
    if a > 0.0 {
      assert a * q > 0.0;
    } else if a < 0.0 {
      assert (-a) * q > 0.0;
    }
  }

  lemma CameraFacts(c: Camera)
    ensures c.maxLaneError > 0 && c.maxLaneError as real > 0.0 && c.height as real > 0.0
  {
  }

  lemma OffsetTimesError(c: Camera, x: int)
    ensures OffsetAt(c, x) * c.maxLaneError as real == (x - c.laneCenter) as real
  {
    CameraFacts(c);
    var d, e := (x - c.laneCenter) as real, c.maxLaneError as real;
    assert OffsetAt(c, x) == d / e;
    hide *;
    QuotientTimes(d, e);
  }

  /** The lane offset is the lane's distance from the center, positive to the right, in units of the
      largest error. */
  lemma OffsetMeasuresLane(c: Camera, t: State, f: Frame)
    ensures Process(c, t, f).lane.x == LaneX(c, t, f)
    ensures ResultOf(c, t, f).laneOffset * c.maxLaneError as real == (LaneX(c, t, f) - c.laneCenter) as real
  {
    LaneIsFollowed(c, t, f);
    OffsetIsThere(c, t, f);
    hide *;
    OffsetTimesError(c, LaneX(c, t, f));
  }

  lemma LaneIsFollowed(c: Camera, t: State, f: Frame)
    ensures Process(c, t, f).lane.x == LaneX(c, t, f)
  {
    hide LaneX;
    hide Directions;
    hide LaneWidth;
    hide StopX;
    hide Track;
    TrackKeepsLane(c, Aim(c, t, f), f);
  }

  lemma TrackKeepsLane(c: Camera, t: State, f: Frame)
    ensures Track(c, t, f).lane == t.lane
  {
  }

  lemma OffsetIsThere(c: Camera, t: State, f: Frame)
    ensures ResultOf(c, t, f).laneOffset == OffsetAt(c, Process(c, t, f).lane.x)
  {
    hide Process;
    hide OffsetAt;
    hide DistanceAt;
    hide Passes;
  }

  /** So its sign is the lane's side. */
  lemma OffsetSign(c: Camera, t: State, f: Frame)
    ensures var o, d := ResultOf(c, t, f).laneOffset, LaneX(c, t, f) - c.laneCenter;
      && (o > 0.0 <==> d > 0) && (o < 0.0 <==> d < 0)
      && (d == c.maxLaneError ==> o == 1.0) && (d == -c.maxLaneError ==> o == -1.0)
  {
    OffsetMeasuresLane(c, t, f);
    CameraFacts(c);
    hide *;
    var o, d, q := ResultOf(c, t, f).laneOffset, (LaneX(c, t, f) - c.laneCenter) as real, c.maxLaneError as real;
    SignOfProduct(o, q);
    SignOfProduct(o - 1.0, q);
    SignOfProduct(o + 1.0, q);
    assert (o - 1.0) * q == o * q - q && (o + 1.0) * q == o * q + q;
  }

  /** Where the lane is found. */
  lemma LaneSide(c: Camera, t: State, f: Frame)
    ensures var d, w := LaneX(c, t, f) - c.laneCenter, LaneWidth(c, f);
      && (f.rightX != -1 && f.leftX != -1 ==>
            && (d > 0 <==> f.rightX + f.leftX >= 2 * c.laneCenter + 2)
            && (d < 0 <==> f.rightX + f.leftX < 2 * c.laneCenter))
      && (f.rightX != -1 && f.leftX == -1 ==>
            (d > 0 <==> f.rightX - w / 2 > c.laneCenter) && (d < 0 <==> f.rightX - w / 2 < c.laneCenter))
      && (f.rightX == -1 && f.leftX != -1 ==>
            (d > 0 <==> f.leftX + w / 2 > c.laneCenter) && (d < 0 <==> f.leftX + w / 2 < c.laneCenter))
      && (f.rightX == -1 && f.leftX == -1 ==>
            && (t.opt.ignoreRight ==> d == -c.maxLaneError)
            && (t.opt.ignoreLeft && !t.opt.ignoreRight ==> d == c.maxLaneError)
            && (!t.opt.ignoreLeft && !t.opt.ignoreRight ==>
                  (d > 0 <==> t.lane.x > c.laneCenter) && (d < 0 <==> t.lane.x < c.laneCenter)))
  {
  }

  /** On which side of the center the lane is found to be. With both lines visible it is the side of their
      middle. With one, it is the side of the point half a lane width inside of it; with none, the car is
      sent to the side that is not ignored, or keeps to its lane. */
  lemma OffsetPointsToLane(c: Camera, t: State, f: Frame)
    ensures var o, w := ResultOf(c, t, f).laneOffset, LaneWidth(c, f);
      && (f.rightX != -1 && f.leftX != -1 ==>
            && (o > 0.0 <==> f.rightX + f.leftX >= 2 * c.laneCenter + 2)
            && (o < 0.0 <==> f.rightX + f.leftX < 2 * c.laneCenter))
      && (f.rightX != -1 && f.leftX == -1 ==>
            (o > 0.0 <==> f.rightX - w / 2 > c.laneCenter) && (o < 0.0 <==> f.rightX - w / 2 < c.laneCenter))
      && (f.rightX == -1 && f.leftX != -1 ==>
            (o > 0.0 <==> f.leftX + w / 2 > c.laneCenter) && (o < 0.0 <==> f.leftX + w / 2 < c.laneCenter))
      && (f.rightX == -1 && f.leftX == -1 ==>
            && (t.opt.ignoreRight ==> o == -1.0)
            && (t.opt.ignoreLeft && !t.opt.ignoreRight ==> o == 1.0)
            && (!t.opt.ignoreLeft && !t.opt.ignoreRight ==>
                  (o > 0.0 <==> t.lane.x > c.laneCenter) && (o < 0.0 <==> t.lane.x < c.laneCenter)))
  {
    hide *;
    LaneSide(c, t, f);
    OffsetSign(c, t, f);
  }

  /** The further right the visible lines, the further right the lane: the offset never falls. */
  lemma OffsetRises(c: Camera, t: State, f: Frame, g: Frame)
    requires (f.rightX == -1 <==> g.rightX == -1) && (f.leftX == -1 <==> g.leftX == -1)
    requires f.rightX <= g.rightX && f.leftX <= g.leftX && f.garbage == g.garbage
    ensures ResultOf(c, t, f).laneOffset <= ResultOf(c, t, g).laneOffset
  {
    hide *;
    OffsetMeasuresLane(c, t, f);
    OffsetMeasuresLane(c, t, g);
    LaneRises(c, t, f, g);
    CameraFacts(c);
    var a, b, q := ResultOf(c, t, f).laneOffset, ResultOf(c, t, g).laneOffset, c.maxLaneError as real;
    SignOfProduct(a - b, q);
    assert (a - b) * q == a * q - b * q;
  }

  lemma LaneRises(c: Camera, t: State, f: Frame, g: Frame)
    requires (f.rightX == -1 <==> g.rightX == -1) && (f.leftX == -1 <==> g.leftX == -1)
    requires f.rightX <= g.rightX && f.leftX <= g.leftX && f.garbage == g.garbage
    ensures LaneX(c, t, f) <= LaneX(c, t, g)
  {
    assert f.rightX != -1 && f.leftX != -1 ==> Quot(f.rightX + f.leftX, 2) <= Quot(g.rightX + g.leftX, 2);
    hide Quot;
  }

  /** The lane is as wide as the two lines are apart, within its limits. */
  lemma WidthIsDistance(c: Camera, t: State, f: Frame)
    ensures var w := Process(c, t, f).laneWidth;
      && c.laneWidthMin <= w <= c.laneWidthMax
      && (f.rightX != -1 && f.leftX != -1 && c.laneWidthMin <= f.rightX - f.leftX <= c.laneWidthMax ==>
            w == f.rightX - f.leftX)
  {
  }

  /** What else a frame reports: the distance of the estimated line, counted from the bottom of the image
      in image heights, and what is visible. */
  lemma ResultTells(c: Camera, t: State, f: Frame)
    ensures var r, t' := ResultOf(c, t, f), Process(c, t, f);
      && r.stopDist * c.height as real == (c.height - t'.stop.y) as real
      && (r.stopVisible <==> t'.stopValid)
      && (r.rightVisible <==> f.right != []) && (r.leftVisible <==> f.left != [])
      && (r.stopPassed ==> t.stopValid && !r.stopVisible)
      && (r.stopPassed && f.stopY != -1 ==> c.BelowMask(f.stopY))
  {
    hide OffsetAt;
    hide DistanceAt;
    DistanceTimesHeight(c, Process(c, t, f).stop.y);
    PassesAimed(c, t, f);
    hide Aim;
  }

  lemma DistanceTimesHeight(c: Camera, y: int)
    ensures DistanceAt(c, y) * c.height as real == (c.height - y) as real
  {
    CameraFacts(c);
    assert DistanceAt(c, y) == 1.0 - y as real / c.height as real;
    hide *;
    DistanceFromBottom(y as real, c.height as real);
  }

  lemma DistanceFromBottom(y: real, h: real)
    requires h > 0.0
    ensures (1.0 - y / h) * h == h - y
  {
    QuotientTimes(y, h);
    assert (1.0 - y / h) * h == h - y / h * h;
  }

  /** A line seen inside the mask is where it is seen, a little more certain than before, and confirmed once
      it has been near the top. */
  lemma SeenLineIsFollowed(c: Camera, t: State, f: Frame)
    requires Bounded(c, t) && f.stopY != -1 && c.maskEndY <= f.stopY && !c.BelowMask(f.stopY)
    ensures var t' := Process(c, t, f);
      && t'.stop.y == f.stopY
      && t'.stopVis == (if t.stopVis == 2 * THRESH_STOP_VIS then t.stopVis else t.stopVis + 1)
      && t'.stopDiff == (if t.stop.y > f.stopY then t.stop.y - f.stopY else 0)
      && (t'.stopValid <==> t.stopValid || 5 * (f.stopY - c.maskEndY) < c.height)
  {
  }

  /** A line that is lost from sight, but still certain, is expected to stay if it was coming nearer, and to
      come back to where it was if it was moving away. */
  lemma LostLineComesBack(c: Camera, t: State, f: Frame, opt: Opt, g: Frame)
    requires Bounded(c, t) && InMask(c, t) && t.stopVis > THRESH_STOP_VIS
    requires f.stopY != -1 && c.maskEndY <= f.stopY && !c.BelowMask(f.stopY) && g.stopY == -1
    ensures Process(c, Process(c, t, f).(opt := opt), g).stop.y == Max(t.stop.y, f.stopY)
    ensures Process(c, Process(c, t, f).(opt := opt), g).stopValid == Process(c, t, f).stopValid
  {
  }

  /** A line counts as its way from its lower to its upper end, whichever way round it is given. */
  lemma LineCountsUpwards(sum: Point, l: Line)
    ensures l.s.y > l.e.y ==> WithLine(sum, l) == Point(sum.x + (l.e.x - l.s.x), sum.y - (l.s.y - l.e.y))
    ensures l.s.y != l.e.y ==> WithLine(sum, Line(l.e, l.s)) == WithLine(sum, l)
  {
  }

  lemma {:induction false} UpwardsAdds(a: seq<Line>, b: seq<Line>)
    ensures Upwards(a + b).x == Upwards(a).x + Upwards(b).x && Upwards(a + b).y == Upwards(a).y + Upwards(b).y
  {
    if b == [] {
      assert a + b == a;
    } else {
      var n := |b| - 1;
      assert (a + b)[..|a| + n] == a + b[..n] && (a + b)[|a| + n] == b[n];
      UpwardsAdds(a, b[..n]);
    }
  }

  /** The lane runs as its lines do, three times as steep; the stop line's direction is at right angles to
      that, half as long, but for rounding. Lines without any height leave the lane straight ahead. */
  lemma DirectionFollowsLines(c: Camera, t: State, f: Frame)
    ensures var t', sum := Process(c, t, f), Upwards(f.right + f.left);
      if f.right == [] && f.left == [] then
        t'.stopDir == t.stopDir && (t.laneDir.y != 0 ==> t'.laneDir == t.laneDir)
      else
        && (sum.y != 0 ==> t'.laneDir == Point(sum.x, 3 * sum.y))
        && (sum.y == 0 ==> t'.laneDir == Point(0, -c.height))
        && -1 <= 2 * t'.stopDir.x + 3 * sum.y <= 1 && -1 <= 2 * t'.stopDir.y - sum.x <= 1
  {
    hide Upwards;
    hide LaneX;
    hide LaneWidth;
  }

  /** The estimated line's middle lies on the lane: a whole number of lane directions from its center, and
      less than one from the height in question. */
  lemma StopLiesOnLane(lane: Point, dir: Point, y: int) returns (n: int)
    requires dir.y != 0
    ensures StopX(lane, dir, y) == lane.x + n * dir.x
    ensures var off := y - (lane.y + n * dir.y);
      -(if dir.y < 0 then -dir.y else dir.y) < off < (if dir.y < 0 then -dir.y else dir.y)
  {
    n := Quot(y - lane.y, dir.y);
    RemainderIsSmall(y - lane.y, dir.y);
  }

  lemma RemainderIsSmall(a: int, b: int)
    requires b != 0
    ensures var r := a - Quot(a, b) * b; -(if b < 0 then -b else b) < r < (if b < 0 then -b else b)
  {
    if a >= 0 {
      assert a == a / b * b + a % b;
    } else {
      assert -a == (-a) / b * b + (-a) % b;
    }
  }

  // ---------------------------------------------------------------------------
  // Bounds over every run of frames
  // ---------------------------------------------------------------------------

  /** A frame, and the options it is looked at with. */
  datatype Shot = Shot(opt: Opt, frame: Frame)

  /** Any frames, with the options set to anything in between. */
  function Run(c: Camera, t: State, shots: seq<Shot>): State {
    if shots == [] then t
    else
      var front, last := shots[..|shots| - 1], shots[|shots| - 1];
      Process(c, Run(c, t, front).(opt := last.opt), last.frame)
  }

  ghost predicate Bounded(c: Camera, t: State) {
    && 0 <= t.stopVis <= 2 * THRESH_STOP_VIS && t.stopDiff >= 0
    && -c.maxLaneError <= t.lane.x - c.laneCenter <= c.maxLaneError
    && t.laneDir.y < 0
  }

  /** The estimated line lies inside the mask. */
  ghost predicate InMask(c: Camera, t: State) {
    c.maskEndY <= t.stop.y && 10 * t.stop.y <= 9 * c.height
  }

  lemma {:induction false} UpwardsIsUp(lines: seq<Line>)
    ensures Upwards(lines).y <= 0
  {
    if lines != [] {
      UpwardsIsUp(lines[..|lines| - 1]);
    }
  }

  lemma FrameKeepsBounds(c: Camera, t: State, f: Frame)
    requires Bounded(c, t)
    ensures Bounded(c, Process(c, t, f)) && InMask(c, Process(c, t, f))
    ensures -1.0 <= ResultOf(c, t, f).laneOffset <= 1.0
    ensures Aim(c, t, f).laneDir.y < 0
  {
    UpwardsIsUp(f.right + f.left);
    OffsetBound(Process(c, t, f).lane.x - c.laneCenter, c.maxLaneError);
  }

  lemma OffsetBound(d: int, e: int)
    requires e > 0 && -e <= d <= e
    ensures -1.0 <= d as real / e as real <= 1.0
  {
    var x, q := d as real / e as real, e as real;
    assert x * q == d as real;
    assert x > 1.0 ==> x * q > q;
    assert x < -1.0 ==> x * q < -q;
  }

  /** After a reset, whatever the camera sees and whatever is ignored: the certainty stays in 0..20, the lane position within
      its error, the lane direction points up (so it can be divided by), and from the first frame on
      the estimated line stays inside the mask. */
  lemma {:induction false} RunStaysBounded(c: Camera, shots: seq<Shot>)
    ensures Bounded(c, Run(c, Reset(c), shots))
    ensures shots != [] ==> InMask(c, Run(c, Reset(c), shots))
  {
    if shots != [] {
      var front, last := shots[..|shots| - 1], shots[|shots| - 1];
      RunStaysBounded(c, front);
      FrameKeepsBounds(c, Run(c, Reset(c), front).(opt := last.opt), last.frame);
    }
  }

  /** The code sets the line's y position to the mask's width at its top. So after a reset the estimate
      lies inside the mask exactly for the frame sizes for which that width happens to be a y position
      inside it; the default size is none of them. Only the first frame repairs the estimate. */
  lemma ResetInsideMask(c: Camera)
    ensures InMask(c, Reset(c)) <==> c.height / 2 <= 55 * c.width / 100 && 10 * (55 * c.width / 100) <= 9 * c.height
    ensures c == Size(256, 144) ==> !InMask(c, Reset(c))
  {
  }

  ghost predicate Unseen(shots: seq<Shot>) {
    forall i | 0 <= i < |shots| :: shots[i].frame.stopY == -1
  }

  lemma UnseenFrame(c: Camera, t: State, f: Frame)
    requires f.stopY == -1 && t.stopVis <= 2 * THRESH_STOP_VIS
    ensures var t' := Process(c, t, f);
      && t'.stopVis <= 2 * THRESH_STOP_VIS
      && (t'.stopValid ==> t.stopValid && t'.stopVis <= t.stopVis - 1 && t.stopVis - 1 > THRESH_STOP_VIS)
      && (InMask(c, t) && t.stopDiff == 0 && t.stopVis - 1 > THRESH_STOP_VIS ==>
            InMask(c, t') && t'.stopDiff == 0 && t'.stopVis == t.stopVis - 1 && t'.stopValid == t.stopValid)
  {
  }

  /** A line that is not seen stays confirmed for less than thresh_stop_vis frames... */
  lemma {:induction false} UnseenLineExpires(c: Camera, t: State, shots: seq<Shot>)
    requires t.stopVis <= 2 * THRESH_STOP_VIS && Unseen(shots)
    ensures Run(c, t, shots).stopVis <= 2 * THRESH_STOP_VIS
    ensures Run(c, t, shots).stopValid ==>
      Run(c, t, shots).stopVis <= t.stopVis - |shots| && |shots| < THRESH_STOP_VIS
  {
    hide Process;
    if shots != [] {
      var front, last := shots[..|shots| - 1], shots[|shots| - 1];
      UnseenLineExpires(c, t, front);
      UnseenFrame(c, Run(c, t, front).(opt := last.opt), last.frame);
    }
  }

  /** ...and, if it was not moving, exactly as long as its certainty allows. */
  lemma {:induction false} StillLineLasts(c: Camera, t: State, shots: seq<Shot>)
    requires t.stopVis <= 2 * THRESH_STOP_VIS && InMask(c, t) && t.stopDiff == 0 && t.stopValid
    requires Unseen(shots) && shots != []
    ensures Run(c, t, shots).stopVis <= 2 * THRESH_STOP_VIS
    ensures Run(c, t, shots).stopValid <==> t.stopVis - |shots| > THRESH_STOP_VIS
    ensures Run(c, t, shots).stopValid ==>
      var t' := Run(c, t, shots);
      InMask(c, t') && t'.stopDiff == 0 && t'.stopVis == t.stopVis - |shots|
  {
    hide Process;
    hide InMask;
    var front, last := shots[..|shots| - 1], shots[|shots| - 1];
    if front != [] {
      StillLineLasts(c, t, front);
    }
    KeepsInMask(c, Run(c, t, front), last.opt);
    UnseenFrame(c, Run(c, t, front).(opt := last.opt), last.frame);
  }

  lemma KeepsInMask(c: Camera, t: State, opt: Opt)
    ensures InMask(c, t.(opt := opt)) <==> InMask(c, t)
  {
  }

  // ---------------------------------------------------------------------------
  // One sighting, one passage
  // ---------------------------------------------------------------------------

  function Count(b: bool): nat { if b then 1 else 0 }

  /** A passage uses up a confirmation, and a frame cannot both confirm a line and let it pass. */
  lemma PassageUsesConfirmation(c: Camera, t: State, f: Frame)
    ensures var t' := Process(c, t, f);
      Count(Passes(c, t, f)) + Count(t'.stopValid) <= Count(t.stopValid) + Count(Validates(c, t, f))
    ensures !(Passes(c, t, f) && Validates(c, t, f))
    ensures Passes(c, t, f) ==> t.stopValid
  {
    PassesAimed(c, t, f);
  }

  // ---------------------------------------------------------------------------
  // What the line classifier takes for a stop line, and for a side line
  // ---------------------------------------------------------------------------

  /** Twice the area that p and the line from s in direction d span; negative to the right. */
  function Side(s: Point, d: Point, p: Point): int {
    (p.x - s.x) * d.y - (p.y - s.y) * d.x
  }

  function Direction(l: Line): Point { Point(l.e.x - l.s.x, l.e.y - l.s.y) }

  function Dot(a: Point, b: Point): int { a.x * b.x + a.y * b.y }

  /** The line from s in direction d meets the segment, and is not parallel to it. */
  predicate Intersects(s: Point, d: Point, l: Line) {
    var denominator := d.x * (l.e.y - l.s.y) - d.y * (l.e.x - l.s.x);
    var numerator := d.y * (l.s.x - s.x) - d.x * (l.s.y - s.y);
    if denominator > 0 then 0 <= numerator <= denominator
    else denominator < 0 && denominator <= numerator <= 0
  }

  /** p is close to the estimated stop line. */
  predicate NearStop(c: Camera, t: State, p: Point) {
    var side, reach := Side(t.stop, t.stopDir, p), c.height / 5;
    t.stopDir != Point(0, 0) && side * side <= reach * reach * Dot(t.stopDir, t.stopDir)
  }

  /** A segment at right angles to the lane, which it crosses, close to the estimated line: the
      classifier takes it for a stop line. (It takes some at other angles as well.) */
  predicate IsStopline(c: Camera, t: State, l: Line) {
    && !t.opt.ignoreStop
    && Direction(l) != Point(0, 0) && t.laneDir != Point(0, 0) && Dot(Direction(l), t.laneDir) == 0
    && Intersects(t.lane, t.laneDir, l)
    && NearStop(c, t, l.s) && NearStop(c, t, l.e)
  }

  /** A segment parallel to the lane and starting below the lane's center: the classifier takes it for a
      side line, if it lies on one side. (It takes some at other angles as well.) */
  predicate AlongLane(t: State, l: Line) {
    && Direction(l) != Point(0, 0) && t.laneDir != Point(0, 0) && Side(Point(0, 0), Direction(l), t.laneDir) == 0
    && (l.s.y >= t.lane.y || l.e.y >= t.lane.y)
  }

  predicate IsRightLine(t: State, l: Line) {
    !t.opt.ignoreRight && AlongLane(t, l) && Side(t.lane, t.laneDir, l.s) < 0 && Side(t.lane, t.laneDir, l.e) < 0
  }

  predicate IsLeftLine(t: State, l: Line) {
    !t.opt.ignoreLeft && AlongLane(t, l) && Side(t.lane, t.laneDir, l.s) > 0 && Side(t.lane, t.laneDir, l.e) > 0
  }

  const LINE_MIN_LENGTH := 20

  /** p lies in the image, inside the region of interest. */
  predicate InRegion(c: Camera, p: Point) {
    var top, bottom := c.maskEndY, 9 * c.height / 10;
    var right, left := (c.width + c.maskWidthTop) / 2, (c.width - c.maskWidthTop) / 2;
    && 0 <= p.x < c.width && top <= p.y < c.height
    && (p.x - right) * (bottom - top) <= (c.width - right) * (p.y - top)
    && (left - p.x) * (bottom - top) <= left * (p.y - top)
  }

  /** A segment that line detection can find. */
  predicate Detectable(c: Camera, l: Line) {
    && InRegion(c, l.s) && InRegion(c, l.e)
    && (l.e.x - l.s.x >= LINE_MIN_LENGTH || l.s.y - l.e.y >= LINE_MIN_LENGTH)
  }

  /** The x position of at most one upright line. */
  predicate Upright(c: Camera, lines: seq<Line>, x: int) {
    if lines == [] then x == -1
    else |lines| == 1 && lines[0].s.x == lines[0].e.x == x && Detectable(c, lines[0])
  }

  /** The frame is what the code makes of upright side lines, at most one on each side, and at most one
      level stop line, all of which it can detect and takes for what they are. */
  ghost predicate Pictured(c: Camera, t: State, f: Frame) {
    && Upright(c, f.right, f.rightX) && (f.right != [] ==> IsRightLine(t, f.right[0]))
    && Upright(c, f.left, f.leftX) && (f.left != [] ==> IsLeftLine(t, f.left[0]))
    && (f.stopY == -1 ||
        exists l: Line :: Detectable(c, l) && IsStopline(c, t, l) && l.s.y == l.e.y == f.stopY)
  }

  /** The line's row is one that the classifier admits: inside the image, and close to the estimate. */
  predicate Admitted(c: Camera, t: State, f: Frame) {
    f.stopY == -1 || (0 <= f.stopY < c.height && -(c.height / 5) <= f.stopY - t.stop.y <= c.height / 5)
  }
}
