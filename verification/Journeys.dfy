/** Drives that can happen: frames that the line classifier lets through, and what they can bring about. */
module Journeys {
  import opened Commands
  import opened Drive
  import opened Executor
  import opened Wrappers
  import T = Tracker

  const USUAL: T.Camera := T.Size(256, 144)

  // ---------------------------------------------------------------------------
  // Frames
  // ---------------------------------------------------------------------------

  /** The tracker looks straight ahead, with the lane inside the region of interest. */
  predicate Centred(t: T.State) {
    && t.lane.y == 72 && 68 <= t.lane.x <= 188
    && t.laneDir.x == 0 && t.laneDir.y in {-1, -99}
    && t.stopDir.y == 0 && t.stopDir.x in {1, 49}
    && !t.opt.ignoreStop && !(t.opt.ignoreRight && t.opt.ignoreLeft)
  }

  /** An upright line at x, from the bottom of the image. */
  function SideLine(c: T.Camera, x: int): T.Line {
    T.Line(T.Point(x, c.height - 1), T.Point(x, 3 * c.height / 4 + 2))
  }

  /** A side line that is not ignored, and a stop line in row y, or none if y is -1. */
  function View(c: T.Camera, opt: T.Opt, y: int): T.Frame {
    var right, left := 9 * c.width / 10, c.width / 10;
    if opt.ignoreRight then T.Frame([], [SideLine(c, left)], -1, left, c.laneWidthMin, y)
    else T.Frame([SideLine(c, right)], [], right, -1, c.laneWidthMin, y)
  }

  /** The region of interest of the usual camera, in numbers. */
  lemma UsualRegion(p: T.Point)
    requires 0 <= p.x < 256 && 72 <= p.y < 144
    requires 57 * (p.x - 198) <= 58 * (p.y - 72) && 57 * (58 - p.x) <= 58 * (p.y - 72)
    ensures T.InRegion(USUAL, p)
  {
    assert USUAL.width == 256 && USUAL.height == 144 && USUAL.maskEndY == 72 && USUAL.maskWidthTop == 140;
    var top, bottom := USUAL.maskEndY, 9 * USUAL.height / 10;
    var right, left := (USUAL.width + USUAL.maskWidthTop) / 2, (USUAL.width - USUAL.maskWidthTop) / 2;
    assert bottom - top == 57 && right == 198 && left == 58;
    assert (p.x - right) * (bottom - top) == 57 * (p.x - 198);
    assert (left - p.x) * (bottom - top) == 57 * (58 - p.x);
  }

  lemma CloseToStop(t: T.State, p: T.Point)
    requires t.stopDir.y == 0 && t.stopDir.x in {1, 49} && -28 <= p.y - t.stop.y <= 28
    ensures T.NearStop(USUAL, t, p)
  {
    var d, k := p.y - t.stop.y, t.stopDir.x;
    assert T.Side(t.stop, t.stopDir, p) == -(d * k);
    assert -(28 * k) <= d * k <= 28 * k;
    Squares(d * k, 28 * k);
  }

  lemma Squares(a: int, b: int)
    requires -b <= a <= b
    ensures (-a) * (-a) <= b * b
  {
    if a >= 0 {
      assert a * a <= a * b <= b * b;
    } else {
      assert (-a) * (-a) <= (-a) * b <= b * b;
    }
  }

  lemma CrossesLane(t: T.State, y: int)
    requires Centred(t)
    ensures T.Intersects(t.lane, t.laneDir, T.Line(T.Point(t.lane.x - 10, y), T.Point(t.lane.x + 10, y)))
  {
    assert t.laneDir == T.Point(0, -1) || t.laneDir == T.Point(0, -99);
  }

  lemma StoplineAhead(t: T.State, y: int, l: T.Line)
    requires Centred(t) && 72 <= y < 144 && -28 <= y - t.stop.y <= 28
    requires l == T.Line(T.Point(t.lane.x - 10, y), T.Point(t.lane.x + 10, y))
    ensures T.Detectable(USUAL, l) && T.IsStopline(USUAL, t, l)
  {
    CloseToStop(t, l.s);
    CloseToStop(t, l.e);
    CrossesLane(t, y);
    UsualRegion(l.s);
    UsualRegion(l.e);
    assert T.Direction(l) == T.Point(20, 0);
    hide T.InRegion;
    hide T.NearStop;
    hide T.Intersects;
  }

  lemma SideLineDetectable(x: int)
    requires x in {25, 230}
    ensures T.Detectable(USUAL, SideLine(USUAL, x)) && SideLine(USUAL, x) == T.Line(T.Point(x, 143), T.Point(x, 110))
  {
    assert USUAL.height == 144;
    UsualRegion(T.Point(x, 143));
    UsualRegion(T.Point(x, 110));
    hide T.InRegion;
  }

  lemma SideLineAhead(t: T.State, x: int, l: T.Line)
    requires Centred(t) && l == T.Line(T.Point(x, 143), T.Point(x, 110))
    ensures x == 230 && !t.opt.ignoreRight ==> T.IsRightLine(t, l)
    ensures x == 25 && !t.opt.ignoreLeft ==> T.IsLeftLine(t, l)
  {
    if t.laneDir == T.Point(0, -1) {
      assert T.Side(t.lane, t.laneDir, l.s) == T.Side(t.lane, t.laneDir, l.e) == t.lane.x - x;
    } else {
      assert T.Side(t.lane, t.laneDir, l.s) == T.Side(t.lane, t.laneDir, l.e) == 99 * (t.lane.x - x);
    }
  }

  lemma ViewIsPictured(t: T.State, y: int)
    requires Centred(t) && (y == -1 || (72 <= y < 144 && -28 <= y - t.stop.y <= 28))
    ensures T.Pictured(USUAL, t, View(USUAL, t.opt, y))
  {
    hide T.Detectable;
    hide T.IsRightLine;
    hide T.IsLeftLine;
    hide T.IsStopline;
    assert USUAL.width == 256;
    var x := if t.opt.ignoreRight then 25 else 230;
    SideLineDetectable(x);
    SideLineAhead(t, x, SideLine(USUAL, x));
    if y != -1 {
      StoplineAhead(t, y, T.Line(T.Point(t.lane.x - 10, y), T.Point(t.lane.x + 10, y)));
    }
  }

  /** What a view makes of the tracker. */
  lemma ViewFacts(c: T.Camera, t: T.State, y: int)
    requires c.height > 10 && Tracked(c, t)
    requires y == -1 ==> !T.InMask(c, t)
    requires y != -1 ==> c.maskEndY <= y
    ensures var f := View(c, t.opt, y);
      var t' := T.Process(c, t, f);
      && (T.Passes(c, t, f) <==> t.stopValid && c.BelowMask(y))
      && t'.stop.y == (if y == -1 || c.BelowMask(y) then c.maskEndY else y)
      && (y != -1 && !c.BelowMask(y) ==> t'.stopValid == (t.stopValid || c.NearTop(y)))
  {
  }

  lemma ViewDirections(t: T.State, y: int)
    ensures T.Directions(USUAL, t, View(USUAL, t.opt, y)) == (T.Point(0, -99), T.Point(49, 0))
  {
    var f := View(USUAL, t.opt, y);
    var l := SideLine(USUAL, if t.opt.ignoreRight then 25 else 230);
    assert USUAL.width == 256 && USUAL.height == 144;
    assert f.right + f.left == [l] && [l][..0] == [];
    assert T.Upwards([]) == T.Point(0, 0);
    assert T.Upwards([l]) == T.Point(0, -33);
    hide T.Upwards;
  }

  lemma ViewLane(t: T.State, y: int)
    ensures T.LaneX(USUAL, t, View(USUAL, t.opt, y)) in {82, 173}
  {
    assert USUAL.width == 256 && USUAL.laneWidthMin == 115 && USUAL.laneWidthMax == 192;
    assert USUAL.laneCenter == 122 && USUAL.maxLaneError == 102;
    assert T.LaneWidth(USUAL, View(USUAL, t.opt, y)) == 115;
    hide T.LaneWidth;
  }

  lemma TrackingKeepsLane(c: T.Camera, t: T.State, f: T.Frame)
    ensures var t' := T.Track(c, t, f);
      t'.lane == t.lane && t'.laneDir == t.laneDir && t'.stopDir == t.stopDir
  {
  }

  lemma ViewIsCentred(t: T.State, y: int, opt: T.Opt)
    requires t.lane.y == 72 && !opt.ignoreStop && !(opt.ignoreRight && opt.ignoreLeft)
    ensures Centred(T.Process(USUAL, t, View(USUAL, t.opt, y)).(opt := opt))
  {
    var f := View(USUAL, t.opt, y);
    ViewDirections(t, y);
    ViewLane(t, y);
    TrackingKeepsLane(USUAL, T.Aim(USUAL, t, f), f);
    hide T.Track;
    hide T.Directions;
    hide T.LaneX;
    hide T.LaneWidth;
    hide View;
    hide T.StopX;
  }

  // ---------------------------------------------------------------------------
  // Journeys
  // ---------------------------------------------------------------------------

  /** Every frame shows its stop line, if any, in a row that the classifier admits. If exact, all its
      lines are segments that the code can detect, and classifies as what they are. */
  ghost predicate Credible(c: T.Camera, s: Sys, events: seq<Event>, exact: bool) {
    events == [] ||
    (var front, last := events[..|events| - 1], events[|events| - 1];
     && Credible(c, s, front, exact)
     && (last.Frame? ==>
           && T.Admitted(c, Run(c, s, front).ip, last.frame)
           && (exact ==> T.Pictured(c, Run(c, s, front).ip, last.frame))))
  }

  lemma {:induction false} CredibleConcat(c: T.Camera, s: Sys, a: seq<Event>, b: seq<Event>, exact: bool)
    requires Credible(c, s, a, exact) && Credible(c, Run(c, s, a), b, exact)
    ensures Credible(c, s, a + b, exact)
  {
    hide Run;
    if b == [] {
      assert a + b == a;
    } else {
      var front, last := b[..|b| - 1], b[|b| - 1];
      assert (a + b)[..|a + b| - 1] == a + front && (a + b)[|a + b| - 1] == last;
      CredibleConcat(c, s, a, front, exact);
      RunConcat(c, s, a, front);
    }
  }

  /** A moment: a time and a distance. */
  datatype Moment = Moment(t: real, d: real) {
    predicate UpTo(m: Moment) { t <= m.t && d <= m.d }
  }

  function MomentOf(sens: Sens): Moment { Moment(sens.time, sens.distance) }

  /** Frames at moments that never go back, between two moments. */
  ghost predicate Between(events: seq<Event>, from: Moment, to: Moment) {
    && from.UpTo(to)
    && (forall i | 0 <= i < |events| ::
          events[i].Frame? && from.UpTo(MomentOf(events[i].sens)) && MomentOf(events[i].sens).UpTo(to))
    && forall i, j | 0 <= i < j < |events| :: MomentOf(events[i].sens).UpTo(MomentOf(events[j].sens))
  }

  lemma BetweenConcat(a: seq<Event>, b: seq<Event>, m: Moment, n: Moment, o: Moment)
    requires Between(a, m, n) && Between(b, n, o)
    ensures Between(a + b, m, o)
  {
    var all := a + b;
    forall i | 0 <= i < |all|
      ensures all[i].Frame? && m.UpTo(MomentOf(all[i].sens)) && MomentOf(all[i].sens).UpTo(o)
    {
      assert i < |a| ==> all[i] == a[i];
      assert i >= |a| ==> all[i] == b[i - |a|];
    }
    forall i, j | 0 <= i < j < |all|
      ensures MomentOf(all[i].sens).UpTo(MomentOf(all[j].sens))
    {
      assert i < |a| ==> all[i] == a[i];
      assert i >= |a| ==> all[i] == b[i - |a|];
      assert j < |a| ==> all[j] == a[j];
      assert j >= |a| ==> all[j] == b[j - |a|];
    }
  }

  /** Frames that can happen lead from s to s'. */
  ghost predicate Journey(c: T.Camera, s: Sys, events: seq<Event>, s': Sys, m: Moment, n: Moment, exact: bool) {
    Between(events, m, n) && Credible(c, s, events, exact) && Run(c, s, events) == s'
  }

  lemma JourneyConcat(c: T.Camera, s: Sys, a: seq<Event>, s': Sys, b: seq<Event>, s'': Sys,
                      m: Moment, n: Moment, o: Moment, exact: bool)
    requires Journey(c, s, a, s', m, n, exact) && Journey(c, s', b, s'', n, o, exact)
    ensures Journey(c, s, a + b, s'', m, o, exact)
  {
    hide Run;
    hide Between;
    hide Credible;
    BetweenConcat(a, b, m, n, o);
    CredibleConcat(c, s, a, b, exact);
    RunConcat(c, s, a, b);
  }

  lemma JourneyOne(c: T.Camera, s: Sys, ev: Event, m: Moment, exact: bool)
    requires ev.Frame? && m.UpTo(MomentOf(ev.sens))
    requires T.Admitted(c, s.ip, ev.frame) && (exact ==> T.Pictured(c, s.ip, ev.frame))
    ensures Journey(c, s, [ev], AfterFrame(c, s, ev.frame, ev.sens), m, MomentOf(ev.sens), exact)
  {
    assert [ev][..0] == [];
    assert Run(c, s, []) == s && Credible(c, s, [], exact);
    hide AfterFrame;
    hide T.Pictured;
    hide T.Admitted;
  }

  lemma JourneyNone(c: T.Camera, s: Sys, m: Moment, exact: bool)
    ensures Journey(c, s, [], s, m, m, exact)
  {
  }

  // ---------------------------------------------------------------------------
  // One glance ahead
  // ---------------------------------------------------------------------------

  /** Where a journey can start. */
  ghost predicate Ready(c: T.Camera, s: Sys, exact: bool) {
    && c.height > 10 && Tracked(c, s.ip) && PosInv(s.exec)
    && (exact ==> c == USUAL && Centred(s.ip))
  }

  /** The row is admitted, and one of those that ViewFacts is about. */
  predicate Showable(c: T.Camera, t: T.State, y: int) {
    && (y == -1 ==> t.stop.y < c.maskEndY || 10 * t.stop.y > 9 * c.height)
    && (y != -1 ==> c.maskEndY <= y < c.height && -(c.height / 5) <= y - t.stop.y <= c.height / 5)
  }

  /** What a frame does to the executor, as far as it goes by the camera. */
  ghost predicate Glanced(s: Sys, s': Sys, passes: bool, sens: Sens) {
    exists res: T.Result ::
      && res.stopPassed == passes
      && s'.exec == Execute(s.exec, sens, res)
      && var e, a := EffectIn(s.exec, sens, res), Arrive(s.exec, sens, res);
         s'.done == (if e.finished then s.done + [a.current.value] else s.done) &&
         (e.finished ==> a.current.Some?)
  }

  /** A glance at row y. */
  lemma Glance(c: T.Camera, s: Sys, y: int, sens: Sens, m: Moment, exact: bool) returns (events: seq<Event>, s': Sys)
    requires Ready(c, s, exact) && Showable(c, s.ip, y) && m.UpTo(MomentOf(sens))
    ensures events == [Frame(View(c, s.ip.opt, y), sens)] && s' == AfterFrame(c, s, View(c, s.ip.opt, y), sens)
    ensures Journey(c, s, events, s', m, MomentOf(sens), exact) && Ready(c, s', exact)
    ensures T.Passes(c, s.ip, View(c, s.ip.opt, y)) <==> s.ip.stopValid && c.BelowMask(y)
    ensures Glanced(s, s', s.ip.stopValid && c.BelowMask(y), sens)
    ensures T.InMask(c, s'.ip)
    ensures s'.ip.stop.y == if y == -1 || c.BelowMask(y) then c.maskEndY else y
    ensures y != -1 && !c.BelowMask(y) ==> s'.ip.stopValid == (s.ip.stopValid || c.NearTop(y))
  {
    var f := View(c, s.ip.opt, y);
    var ev := Frame(f, sens);
    var res := T.ResultOf(c, s.ip, f);
    events, s' := [ev], AfterFrame(c, s, f, sens);
    ViewFacts(c, s.ip, y);
    if exact {
      ViewIsPictured(s.ip, y);
      var a := Arrive(s.exec, sens, res);
      if a.current.Some? {
        CommandsKeepToTheirOwn(a.current.value, SituationOf(a, sens, res), FULL_VEL, res.laneOffset);
      }
      ViewIsCentred(s.ip, y, s'.ip.opt);
      KeepsOpt(c, s.ip, f);
    }
    JourneyOne(c, s, ev, m, exact);
    StepKeepsTracked(c, s, ev);
    ExecuteFacts(s.exec, sens, res);
    hide T.Process;
    hide T.Passes;
    hide Act;
    hide T.Pictured;
    hide Journey;
    hide Tracked;
    hide View;
  }

  lemma KeepsOpt(c: T.Camera, t: T.State, f: T.Frame)
    ensures T.Process(c, t, f).opt == t.opt && T.ResultOf(c, t, f).stopPassed == T.Passes(c, t, f)
  {
  }

  // ---------------------------------------------------------------------------
  // Up to a line, and over it
  // ---------------------------------------------------------------------------

  /** As long as no line is passed, the current command changes nothing. */
  predicate Calm(x: Executor.State, sens: Sens) {
    && x.current.Some?
    && (|| x.pos == BEFORE_STOP
        || (x.current == Some(Park) && x.pos == PARKED && sens.time - x.passtime < PICKUP_TIME)
        || (x.current == Some(Park) && x.pos == UNPARKING && sens.distance - x.passdist < 0.25))
  }

  lemma CalmStays(s: Sys, s': Sys, sens: Sens)
    requires Calm(s.exec, sens) && Glanced(s, s', false, sens)
    ensures s'.exec == s.exec && s'.done == s.done
  {
  }

  /** Frames after which a confirmed line is expected at the top of the mask, and nothing else has changed. */
  lemma {:induction false} SeeLine(c: T.Camera, s: Sys, sens: Sens, m: Moment, exact: bool)
    returns (events: seq<Event>, s': Sys)
    requires Ready(c, s, exact) && Calm(s.exec, sens) && m.UpTo(MomentOf(sens))
    ensures Journey(c, s, events, s', m, MomentOf(sens), exact) && Ready(c, s', exact)
    ensures s'.exec == s.exec && s'.done == s.done
    ensures s'.ip.stopValid && s'.ip.stop.y == c.maskEndY && T.InMask(c, s'.ip)
    decreases !T.InMask(c, s.ip), s.ip.stop.y - c.maskEndY
  {
    hide Journey;
    hide Tracked;
    hide Glanced;
    var top, y := c.maskEndY, s.ip.stop.y;
    var row := if !T.InMask(c, s.ip) then -1 else if y - c.height / 5 > top then y - c.height / 5 else top;
    events, s' := Glance(c, s, row, sens, m, exact);
    CalmStays(s, s', sens);
    if row != top {
      var first, s1 := events, s';
      var rest;
      rest, s' := SeeLine(c, s1, sens, MomentOf(sens), exact);
      JourneyConcat(c, s, first, s1, rest, s', m, MomentOf(sens), MomentOf(sens), exact);
      events := first + rest;
    }
  }

  /** One row further down, where the line is not yet passed. */
  lemma NextRow(c: T.Camera, s0: Sys, before: seq<Event>, s: Sys, y: int, sens: Sens, m: Moment, exact: bool)
    returns (events: seq<Event>, s': Sys)
    requires Ready(c, s, exact) && Calm(s.exec, sens) && m.UpTo(MomentOf(sens))
    requires Journey(c, s0, before, s, m, MomentOf(sens), exact)
    requires Showable(c, s.ip, y) && y != -1 && !c.BelowMask(y) && s.ip.stopValid
    ensures Journey(c, s0, events, s', m, MomentOf(sens), exact) && Ready(c, s', exact)
    ensures s'.exec == s.exec && s'.done == s.done && s'.ip.stopValid && s'.ip.stop.y == y
  {
    hide Journey;
    hide Tracked;
    hide Glanced;
    var one;
    one, s' := Glance(c, s, y, sens, MomentOf(sens), exact);
    CalmStays(s, s', sens);
    JourneyConcat(c, s0, before, s, one, s', m, MomentOf(sens), MomentOf(sens), exact);
    events := before + one;
  }

  /** Frames that see a line come down the mask and, with the last of them, pass it. */
  lemma PassLine(c: T.Camera, s: Sys, sens: Sens, m: Moment, exact: bool)
    returns (events: seq<Event>, s1: Sys, over: T.Frame, s': Sys)
    requires Ready(c, s, exact) && Calm(s.exec, sens) && m.UpTo(MomentOf(sens))
    ensures Journey(c, s, events, s', m, MomentOf(sens), exact) && Ready(c, s', exact)
    ensures s1.exec == s.exec && s1.done == s.done
    ensures s' == AfterFrame(c, s1, over, sens) && T.Passes(c, s1.ip, over) && Glanced(s1, s', true, sens)
  {
    hide Journey;
    hide Tracked;
    hide Glanced;
    hide AfterFrame;
    hide T.Passes;
    var step, now := c.height / 5, MomentOf(sens);
    events, s1 := SeeLine(c, s, sens, m, exact);
    events, s1 := NextRow(c, s, events, s1, c.maskEndY + step, sens, m, exact);
    events, s1 := NextRow(c, s, events, s1, c.maskEndY + 2 * step, sens, m, exact);
    over := View(c, s1.ip.opt, c.height - 1);
    var last;
    last, s' := Glance(c, s1, c.height - 1, sens, now, exact);
    JourneyConcat(c, s, events, s1, last, s', m, now, now, exact);
    events := events + last;
  }

  /** A frame in which no line is passed. */
  lemma GoOn(c: T.Camera, s: Sys, sens: Sens, m: Moment, exact: bool) returns (events: seq<Event>, s': Sys)
    requires Ready(c, s, exact) && m.UpTo(MomentOf(sens))
    ensures Journey(c, s, events, s', m, MomentOf(sens), exact) && Ready(c, s', exact)
    ensures Glanced(s, s', false, sens)
  {
    events, s' := Glance(c, s, if T.InMask(c, s.ip) then s.ip.stop.y else -1, sens, m, exact);
  }

  // ---------------------------------------------------------------------------
  // Every mission can be finished
  // ---------------------------------------------------------------------------

  predicate Overshot(x: Executor.State) {
    x.current == Some(Park) && x.pos > UNPARKING
  }

  /** The current command is finished, or, behind its line, one position further on its way. */
  ghost predicate MovedOn(s: Sys, s': Sys) {
    && s.exec.current.Some? && s'.exec.queue == s.exec.queue
    && (|| (s'.done == s.done + [s.exec.current.value] && s'.exec.current == None && s'.exec.pos == BEFORE_STOP)
        || (s'.done == s.done && s'.exec.current == s.exec.current && !Overshot(s'.exec) &&
            s'.exec.pos == s.exec.pos + 1 && (s.exec.current == Some(Park) || s'.exec.pos == AFTER_STOP)))
  }

  lemma CrossingMovesOn(s: Sys, s': Sys, sens: Sens)
    requires PosInv(s.exec) && s.exec.current.Some? && s.exec.pos == BEFORE_STOP && Glanced(s, s', true, sens)
    ensures MovedOn(s, s')
  {
  }

  lemma GoingOnMovesOn(s: Sys, s': Sys, sens: Sens)
    requires PosInv(s.exec) && s.exec.current.Some? && s.exec.pos >= AFTER_STOP && !Overshot(s.exec)
    requires sens.time - s.exec.passtime >= PICKUP_TIME && sens.distance - s.exec.passdist >= 1.0
    requires Glanced(s, s', false, sens)
    ensures MovedOn(s, s')
  {
  }

  function Larger(a: real, b: real): real { if a > b then a else b }

  /** A moment late and far enough for everything that a command waits for. */
  function Later(x: Executor.State, m: Moment): Sens {
    Sens(Larger(m.t, x.passtime) + PICKUP_TIME, Larger(m.d, x.passdist) + 1.0, 0.0)
  }

  /** How far the current command is from its end. */
  function ToGo(x: Executor.State): nat {
    if x.current == Some(Park) && x.pos <= UNPARKING + 1 then UNPARKING + 1 - (if x.pos < 0 then 0 else x.pos)
    else if x.pos <= BEFORE_STOP then 1 else 0
  }

  /** Frames that finish the current command from any position but past the end of a park. */
  lemma {:induction false} FinishCommand(c: T.Camera, s: Sys, m: Moment, exact: bool)
    returns (events: seq<Event>, s': Sys, n: Moment)
    requires Ready(c, s, exact) && s.exec.current.Some? && !Overshot(s.exec)
    ensures Journey(c, s, events, s', m, n, exact) && Ready(c, s', exact)
    ensures s'.done == s.done + [s.exec.current.value] && s'.exec.current == None
    ensures s'.exec.queue == s.exec.queue && s'.exec.pos == BEFORE_STOP
    decreases ToGo(s.exec)
  {
    hide Journey;
    hide Tracked;
    hide Glanced;
    hide Centred;
    var sens := Later(s.exec, m);
    n := MomentOf(sens);
    if s.exec.pos == BEFORE_STOP {
      var s1, over;
      events, s1, over, s' := PassLine(c, s, sens, m, exact);
      CrossingMovesOn(s1, s', sens);
    } else {
      events, s' := GoOn(c, s, sens, m, exact);
      GoingOnMovesOn(s, s', sens);
    }
    if s'.exec.current.Some? {
      var first, s1, n1 := events, s', n;
      var rest;
      rest, s', n := FinishCommand(c, s1, n1, exact);
      JourneyConcat(c, s, first, s1, rest, s', m, n1, n, exact);
      events := first + rest;
    }
  }

  /** What is left of the mission. */
  function Left(x: Executor.State): seq<Command> { Current(x) + x.queue }

  lemma Dispatches(s: Sys, s': Sys, sens: Sens)
    requires PosInv(s.exec) && s.exec.current == None && s.exec.queue != [] && Glanced(s, s', false, sens)
    ensures s'.exec.current == Some(s.exec.queue[0]) && s'.exec.queue == s.exec.queue[1..]
    ensures s'.exec.pos == BEFORE_STOP && s'.done == s.done
  {
  }

  /** Frames that finish all commands of the mission. */
  lemma {:induction false} FinishMission(c: T.Camera, s: Sys, m: Moment, exact: bool)
    returns (events: seq<Event>, s': Sys, n: Moment)
    requires Ready(c, s, exact) && !Overshot(s.exec)
    ensures Journey(c, s, events, s', m, n, exact) && s'.done == s.done + Left(s.exec)
    decreases |s.exec.queue|, s.exec.current.Some?
  {
    hide Journey;
    hide Tracked;
    hide Glanced;
    hide Centred;
    if s.exec.current == None && s.exec.queue == [] {
      JourneyNone(c, s, m, exact);
      return [], s, m;
    }
    if s.exec.current.Some? {
      events, s', n := FinishCommand(c, s, m, exact);
    } else {
      var sens := Sens(m.t, m.d, 0.0);
      n := m;
      events, s' := GoOn(c, s, sens, m, exact);
      Dispatches(s, s', sens);
      assert [s.exec.queue[0]] + s.exec.queue[1..] == s.exec.queue;
    }
    var first, s1, n1 := events, s', n;
    var rest;
    assert s1.done + Left(s1.exec) == s.done + Left(s.exec);
    rest, s', n := FinishMission(c, s1, n1, exact);
    JourneyConcat(c, s, first, s1, rest, s', m, n1, n, exact);
    events := first + rest;
  }

  /** Frames that can happen, from a moment on, and what they finish. */
  ghost predicate Finishes(c: T.Camera, s: Sys, events: seq<Event>, m: Moment, exact: bool, commands: seq<Command>) {
    && (exists n :: Between(events, m, n))
    && Credible(c, s, events, exact)
    && Run(c, s, events).done == s.done + commands
  }

  /** Whether journeys from here can be told down to the segments that the classifier sees. */
  predicate LooksAhead(c: T.Camera, s: Sys) { c == USUAL && Centred(s.ip) }

  /** From wherever a drive has got to, there are frames that can happen, at moments that never go back,
      that finish all that is left of the mission, if and only if no park has been carried past its last
      position. */
  lemma MissionCanFinish(c: T.Camera, s: Sys, m: Moment, exact: bool)
    requires Ready(c, s, exact)
    ensures (exists events :: Finishes(c, s, events, m, exact, Left(s.exec))) <==> !Overshot(s.exec)
  {
    if Overshot(s.exec) {
      assert |Left(s.exec)| > 0;
      forall events | OnlyFrames(events)
        ensures Run(c, s, events).done == s.done
      {
        OvershotParkNeverEnds(c, s, events);
      }
    } else {
      var events, s', n := FinishMission(c, s, m, exact);
      assert Finishes(c, s, events, m, exact, Left(s.exec));
    }
  }

  /** Every state of a drive is one that a journey can start from; so that holds at every point of every
      drive, and what is finished then is the whole mission. */
  lemma DrivesCanFinish(c: T.Camera, past: seq<Event>, m: Moment)
    requires c.height > 10
    ensures var s := Run(c, Start(c), past);
      && s.done + Left(s.exec) == s.mission
      && ((exists events :: Finishes(c, s, events, m, LooksAhead(c, s), Left(s.exec))) <==> !Overshot(s.exec))
  {
    hide *;
    ReadyOnDrive(c, past);
    MissionCanFinish(c, Run(c, Start(c), past), m, LooksAhead(c, Run(c, Start(c), past)));
  }

  lemma ReadyOnDrive(c: T.Camera, past: seq<Event>)
    requires c.height > 10
    ensures var s := Run(c, Start(c), past); Ready(c, s, LooksAhead(c, s)) && s.done + Left(s.exec) == s.mission
  {
    hide Run;
    hide Tracked;
    hide DwellInv;
    StartTracked(c);
    DriveKeepsPromises(c, past);
    TrackerStaysBounded(c, Start(c), past);
    var s := Run(c, Start(c), past);
    assert s.done + Left(s.exec) == s.done + Current(s.exec) + s.exec.queue;
  }

  lemma StartTracked(c: T.Camera)
    ensures Tracked(c, Start(c).ip)
  {
  }

  /** The same for the current command alone: a park can be finished if and only if it has not been
      carried past its last position, and every other command can. */
  lemma CommandCanFinish(c: T.Camera, s: Sys, m: Moment, exact: bool)
    requires Ready(c, s, exact) && s.exec.current.Some?
    ensures (exists events :: Finishes(c, s, events, m, exact, [s.exec.current.value])) <==> !Overshot(s.exec)
  {
    if Overshot(s.exec) {
      forall events | OnlyFrames(events)
        ensures Run(c, s, events).done == s.done
      {
        OvershotParkNeverEnds(c, s, events);
      }
    } else {
      var events, s', n := FinishCommand(c, s, m, exact);
      assert Finishes(c, s, events, m, exact, [s.exec.current.value]);
    }
  }

  // ---------------------------------------------------------------------------
  // A park that passes a line, on a drive
  // ---------------------------------------------------------------------------

  /** The mission to park and then to stop has just been set. */
  function Assigned(c: T.Camera): Sys {
    AfterMission(c, Start(c), Names([Park, Stop]), false)
  }

  lemma AssignedFacts(c: T.Camera, exact: bool)
    requires c.height > 10 && (exact ==> c == USUAL)
    ensures Ready(c, Assigned(c), exact) && Assigned(c).done == []
    ensures Assigned(c).exec == Executor.State(None, [Park, Stop], 0.0, 0.0, BEFORE_STOP)
    ensures Run(c, Start(c), [Mission(Names([Park, Stop]), false)]) == Assigned(c)
  {
    NamesQueue([Park, Stop]);
    RunOne(c, Start(c), Mission(Names([Park, Stop]), false));
    StepKeepsTracked(c, Start(c), Mission(Names([Park, Stop]), false));
  }

  ghost predicate Parking(s: Sys, pos: int, at: real) {
    s.exec == Executor.State(Some(Park), [Stop], at, at, pos) && s.done == []
  }

  lemma ParkingCrosses(s: Sys, s': Sys, pos: int, at: real, now: real)
    requires Parking(s, pos, at) && pos in {BEFORE_STOP, PARKED, UNPARKING}
    requires Glanced(s, s', true, Sens(now, now, 0.0))
    ensures Parking(s', pos + 1, now)
  {
  }

  lemma ParkingGoesOn(s: Sys, s': Sys, pos: int, at: real, now: real)
    requires Parking(s, pos, at) && pos in {AFTER_STOP, PARKED}
    requires if pos == AFTER_STOP then now - at > 0.8 else now - at >= PICKUP_TIME
    requires Glanced(s, s', false, Sens(now, now, 0.0))
    ensures Parking(s', pos + 1, now)
  {
  }

  /** The car drives into its place. */
  lemma DriveIntoPlace(c: T.Camera, exact: bool) returns (events: seq<Event>, s: Sys)
    requires c.height > 10 && (exact ==> c == USUAL)
    ensures Journey(c, Assigned(c), events, s, Moment(0.0, 0.0), Moment(1.0, 1.0), exact) && Ready(c, s, exact)
    ensures Parking(s, PARKED, 1.0)
  {
    hide Journey;
    hide Ready;
    hide Glanced;
    var s0, m0, m1 := Assigned(c), Moment(0.0, 0.0), Moment(1.0, 1.0);
    var start, there := Sens(0.0, 0.0, 0.0), Sens(1.0, 1.0, 0.0);
    AssignedFacts(c, exact);
    var s1, s2, over, next;
    events, s := GoOn(c, s0, start, m0, exact);
    Dispatches(s0, s, start);
    GoingNowhere(s0, s, start);
    next, s1, over, s2 := PassLine(c, s, start, m0, exact);
    ParkingCrosses(s1, s2, BEFORE_STOP, 0.0, 0.0);
    JourneyConcat(c, s0, events, s, next, s2, m0, m0, m0, exact);
    events := events + next;
    next, s := GoOn(c, s2, there, m0, exact);
    ParkingGoesOn(s2, s, AFTER_STOP, 0.0, 1.0);
    JourneyConcat(c, s0, events, s2, next, s, m0, m0, m1, exact);
    events := events + next;
  }

  lemma GoingNowhere(s: Sys, s': Sys, sens: Sens)
    requires PosInv(s.exec) && s.exec.current == None && s.exec.queue != [] && Glanced(s, s', false, sens)
    ensures s'.exec.passtime == s.exec.passtime && s'.exec.passdist == s.exec.passdist
  {
  }

  /** A line passed while the car stands in its place: from the start of a drive there are frames that can
      happen after which the park leaves its place at full speed, in the frame that passes the line and at
      the very moment it came there. */
  lemma DriveWithoutDwelling(c: T.Camera, exact: bool) returns (events: seq<Event>, s: Sys)
    requires c.height > 10 && (exact ==> c == USUAL)
    ensures Journey(c, Assigned(c), events, s, Moment(0.0, 0.0), Moment(1.0, 1.0), exact)
    ensures s.exec.current == Some(Park) && s.exec.pos == UNPARKING
    ensures |s.log| > 0 && s.log[|s.log| - 1].vel == FULL_VEL && s.log[|s.log| - 1].before == PARKED
    ensures !Parked(s.log, |s.log| - 1)
  {
    hide Journey;
    hide Ready;
    hide Glanced;
    hide T.Passes;
    var p, next, s1, over;
    events, p := DriveIntoPlace(c, exact);
    var there := Sens(1.0, 1.0, 0.0);
    next, s1, over, s := PassLine(c, p, there, Moment(1.0, 1.0), exact);
    ParkingCrosses(s1, s, PARKED, 1.0, 1.0);
    LeavesParked(c, s1, over, there);
    LastEntry(c, s1, over, there);
    JourneyConcat(c, Assigned(c), events, p, next, s, Moment(0.0, 0.0), Moment(1.0, 1.0), Moment(1.0, 1.0), exact);
    events := events + next;
  }

  lemma LastEntry(c: T.Camera, s: Sys, f: T.Frame, sens: Sens)
    ensures var log := AfterFrame(c, s, f, sens).log;
      && |log| == |s.log| + 1 && log[|s.log|].before == s.exec.pos
      && (T.Passes(c, s.ip, f) ==> !Parked(log, |s.log|))
  {
    KeepsOpt(c, s.ip, f);
    hide T.Process;
    hide T.ResultOf;
    hide T.Passes;
    hide Act;
  }

  /** A line passed while the car unparks: from the start of a drive there are frames that can happen after
      which no frames at all finish the park. */
  lemma DriveWithoutEnd(c: T.Camera, exact: bool) returns (events: seq<Event>, s: Sys)
    requires c.height > 10 && (exact ==> c == USUAL)
    ensures Journey(c, Assigned(c), events, s, Moment(0.0, 0.0), Moment(10.0, 10.0), exact)
    ensures Overshot(s.exec) && s.exec.queue == [Stop]
    ensures forall more | OnlyFrames(more) ::
      Run(c, s, more).exec.current == Some(Park) && Run(c, s, more).exec.queue == [Stop] && Run(c, s, more).done == []
  {
    hide Journey;
    hide Ready;
    hide Glanced;
    var m0, m1, m2 := Moment(0.0, 0.0), Moment(1.0, 1.0), Moment(10.0, 10.0);
    var p, q, next, s1, over;
    var out := Sens(10.0, 10.0, 0.0);
    events, p := DriveIntoPlace(c, exact);
    next, q := GoOn(c, p, out, m1, exact);
    ParkingGoesOn(p, q, PARKED, 1.0, 10.0);
    JourneyConcat(c, Assigned(c), events, p, next, q, m0, m1, m2, exact);
    events := events + next;
    next, s1, over, s := PassLine(c, q, out, m2, exact);
    ParkingCrosses(s1, s, UNPARKING, 10.0, 10.0);
    JourneyConcat(c, Assigned(c), events, q, next, s, m0, m2, m2, exact);
    events := events + next;
    forall more | OnlyFrames(more)
      ensures Run(c, s, more).exec.current == Some(Park)
      ensures Run(c, s, more).exec.queue == [Stop] && Run(c, s, more).done == []
    {
      OvershotParkNeverEnds(c, s, more);
    }
  }
}
