/** Whole drives: the tracker and the executor composed, over every sequence of frames and mission
    changes, with the record that the promises are about. */
module Drive {
  import opened Commands
  import opened Executor
  import opened Wrappers
  import T = Tracker

  datatype Event =
    | Frame(frame: T.Frame, sens: Sens)
    | Mission(cmds: seq<string>, append: bool)

  /** One frame: time, distance and velocity of the car, what the tracker reported, the velocity and the
      steering commanded, the command that ran and whether it was the last one, the position before the
      frame, the one the command ran in and the one it left, whether it finished, and the time and the way
      since the position last changed, as the command saw them. */
  datatype Entry = Entry(time: real, distance: real, speed: real, passed: bool, visible: bool, offset: real,
                         vel: real, rot: real, cmd: Option<Command>, last: bool,
                         before: int, at: int, after: int, finished: bool, waited: real, travelled: real)

  datatype Sys = Sys(
    exec: Executor.State,
    ip: T.State,
    log: seq<Entry>,
    mark: Option<nat>,        // the frame in which the executor last moved, since the last mission change
    passes: nat,
    validations: nat,
    completions: nat,
    mission: seq<Command>,   // the mission last set, and all missions appended to it
    done: seq<Command>)       // the commands finished since it was set

  function Start(c: T.Camera): Sys {
    Sys(Executor.State(None, [], 0.0, 0.0, BEFORE_STOP), T.Reset(c), [], None, 0, 0, 0, [], [])
  }

  function EntryOf(x: Executor.State, sens: Sens, res: T.Result): Entry {
    var a, e := Arrive(x, sens, res), EffectIn(x, sens, res);
    Entry(sens.time, sens.distance, sens.velocity, res.stopPassed, res.stopVisible, res.laneOffset,
          e.vel, e.rot, a.current, a.queue == [],
          x.pos, a.pos, Execute(x, sens, res).pos, e.finished, sens.time - a.passtime, sens.distance - a.passdist)
  }

  function AfterFrame(c: T.Camera, s: Sys, frame: T.Frame, sens: Sens): Sys {
    var res := T.ResultOf(c, s.ip, frame);
    var a, e := Arrive(s.exec, sens, res), EffectIn(s.exec, sens, res);
    var ip := T.Process(c, s.ip, frame);
    Sys(Execute(s.exec, sens, res),
        if a.current.None? then ip else ip.(opt := T.Opt(e.ignoreRight, e.ignoreLeft, false)),
        s.log + [EntryOf(s.exec, sens, res)],
        if res.stopPassed || e.pos != a.pos then Some(|s.log|) else s.mark,
        s.passes + T.Count(res.stopPassed),
        s.validations + T.Count(T.Validates(c, s.ip, frame)),
        s.completions + T.Count(e.finished),
        s.mission,
        if e.finished then s.done + [a.current.value] else s.done)
  }

  function AfterMission(c: T.Camera, s: Sys, cmds: seq<string>, append: bool): Sys {
    if !AllKnown(cmds) then s
    else
      s.(exec := SetMission(s.exec, cmds, append),
         ip := T.Reset(c),
         mark := None,
         mission := (if append then s.mission else []) + Queue(cmds),
         done := if append then s.done else [])
  }

  function Step(c: T.Camera, s: Sys, ev: Event): Sys {
    match ev
    case Frame(frame, sens) => AfterFrame(c, s, frame, sens)
    case Mission(cmds, append) => AfterMission(c, s, cmds, append)
  }

  function Run(c: T.Camera, s: Sys, events: seq<Event>): Sys {
    if events == [] then s else Step(c, Run(c, s, events[..|events| - 1]), events[|events| - 1])
  }

  // ---------------------------------------------------------------------------
  // Facts about one command
  // ---------------------------------------------------------------------------

  lemma ActFacts(cmd: Command, s: Situation, vel: real, rot: real)
    ensures var e := Act(cmd, s, vel, rot);
      && (e.finished ==> s.pos >= AFTER_STOP && e.pos == s.pos)
      && (e.pos != s.pos ==> cmd == Park && e.pos == s.pos + 1 && AFTER_STOP <= s.pos <= PARKED)
      && (cmd == Stop && s.pos >= AFTER_STOP ==>
            e.vel == 0.0 && (e.finished <==> s.lastCmd || s.postime >= PICKUP_TIME))
      && (cmd == Park && s.pos == PARKED ==>
            e.vel == 0.0 && (e.pos == UNPARKING <==> s.postime >= PICKUP_TIME))
      && (cmd == Park && s.pos > UNPARKING ==> !e.finished && e.pos == s.pos)
  {
  }

  // ---------------------------------------------------------------------------
  // Position and queue
  // ---------------------------------------------------------------------------

  /** The car is never before the line it starts from, and exactly there whenever a command waits and
      none is current. So every command starts at BEFORE_STOP. */
  ghost predicate PosInv(x: Executor.State) {
    x.pos >= BEFORE_STOP && (x.current.None? && x.queue != [] ==> x.pos == BEFORE_STOP)
  }

  lemma ExecuteFacts(x: Executor.State, sens: Sens, res: T.Result)
    requires PosInv(x)
    ensures var a, e, x' := Arrive(x, sens, res), EffectIn(x, sens, res), Execute(x, sens, res);
      && PosInv(x') && a.pos >= BEFORE_STOP
      && (e.finished ==> a.current.Some? && a.pos >= AFTER_STOP && x'.pos == BEFORE_STOP && x'.current.None?)
      && (!e.finished ==> x'.current == a.current && x'.pos == e.pos)
      && x'.queue == a.queue
      && (a.current != x.current ==> x.current.None? && x.pos == BEFORE_STOP)
  {
    var a := Arrive(x, sens, res);
    if a.current.Some? {
      ActFacts(a.current.value, SituationOf(a, sens, res), FULL_VEL, res.laneOffset);
    }
    hide Act;
  }

  function Current(x: Executor.State): seq<Command> {
    if x.current.None? then [] else [x.current.value]
  }

  /** What is finished, current and queued is what was assigned, in that order. */
  ghost predicate FifoInv(s: Sys) {
    s.done + Current(s.exec) + s.exec.queue == s.mission
  }

  lemma DispatchKeepsOrder(x: Executor.State, done: seq<Command>)
    ensures done + Current(Dispatch(x)) + Dispatch(x).queue == done + Current(x) + x.queue
  {
    if x.current.None? && x.queue != [] {
      assert x.queue == [x.queue[0]] + x.queue[1..];
    }
  }

  lemma FrameKeepsFifo(c: T.Camera, s: Sys, frame: T.Frame, sens: Sens)
    requires PosInv(s.exec) && FifoInv(s)
    ensures FifoInv(AfterFrame(c, s, frame, sens))
  {
    var res := T.ResultOf(c, s.ip, frame);
    ExecuteFacts(s.exec, sens, res);
    DispatchKeepsOrder(s.exec, s.done);
    hide Act;
    hide T.ResultOf;
    hide T.Process;
    var a := Arrive(s.exec, sens, res);
    assert a.queue == Dispatch(s.exec).queue && Current(a) == Current(Dispatch(s.exec));
    var s' := AfterFrame(c, s, frame, sens);
    assert s'.done + Current(s'.exec) == s.done + Current(a);
  }

  lemma AppendAtEnd(a: seq<Command>, b: seq<Command>, c: seq<Command>, d: seq<Command>)
    ensures a + b + (c + d) == (a + b + c) + d
  {
  }

  lemma MissionKeepsFifo(c: T.Camera, s: Sys, cmds: seq<string>, append: bool)
    ensures FifoInv(s) ==> FifoInv(AfterMission(c, s, cmds, append))
    ensures !AllKnown(cmds) ==> SetMission(s.exec, cmds, append) == s.exec
  {
    AppendAtEnd(s.done, Current(s.exec), s.exec.queue, Queue(cmds));
  }

  // ---------------------------------------------------------------------------
  // The tracker on a drive
  // ---------------------------------------------------------------------------

  /** The tracker's bounds; the estimated line is inside the mask, or the tracker has just been reset. */
  ghost predicate Tracked(c: T.Camera, t: T.State) {
    T.Bounded(c, t) && (T.InMask(c, t) || (t.stopVis == 0 && t.stopDiff == 0 && !t.stopValid))
  }

  lemma StepKeepsTracked(c: T.Camera, s: Sys, ev: Event)
    requires Tracked(c, s.ip)
    ensures Tracked(c, Step(c, s, ev).ip)
    ensures ev.Frame? ==> T.InMask(c, Step(c, s, ev).ip)
  {
    if ev.Frame? {
      T.FrameKeepsBounds(c, s.ip, ev.frame);
    }
    hide T.Process;
    hide T.ResultOf;
    hide Act;
  }

  /** Over every stretch of every drive, with the options that the commands set and the resets that
      mission changes bring: the tracker stays within its bounds, and after each frame the estimated
      line is inside the mask. */
  lemma {:induction false} TrackerStaysBounded(c: T.Camera, s: Sys, events: seq<Event>)
    requires Tracked(c, s.ip)
    ensures Tracked(c, Run(c, s, events).ip)
    ensures events != [] && events[|events| - 1].Frame? ==> T.InMask(c, Run(c, s, events).ip)
  {
    hide Step;
    hide Tracked;
    hide T.InMask;
    if events != [] {
      var front, last := events[..|events| - 1], events[|events| - 1];
      TrackerStaysBounded(c, s, front);
      StepKeepsTracked(c, Run(c, s, front), last);
    }
  }

  /** In every frame of every drive the lane offset, and the steering commanded, lie in [-1, 1]. */
  lemma SteeringStaysBounded(c: T.Camera, events: seq<Event>, frame: T.Frame, sens: Sens)
    ensures var s := Run(c, Start(c), events);
      var res := T.ResultOf(c, s.ip, frame);
      && T.Bounded(c, s.ip)
      && -1.0 <= res.laneOffset <= 1.0
      && -1.0 <= EffectIn(s.exec, sens, res).rot <= 1.0
  {
    var s := Run(c, Start(c), events);
    TrackerStaysBounded(c, Start(c), events);
    T.FrameKeepsBounds(c, s.ip, frame);
    var res := T.ResultOf(c, s.ip, frame);
    var a := Arrive(s.exec, sens, res);
    if a.current.Some? {
      SteeringOf(a.current.value, SituationOf(a, sens, res), FULL_VEL, res.laneOffset);
    }
    hide Act;
    hide T.ResultOf;
    hide Run;
  }

  lemma SteeringOf(cmd: Command, s: Situation, vel: real, rot: real)
    ensures Act(cmd, s, vel, rot).rot in {rot, 0.9, LEFT}
  {
  }

  ghost predicate NoLineSeen(events: seq<Event>) {
    forall i | 0 <= i < |events| :: events[i].Frame? && events[i].frame.stopY == -1
  }

  /** On a drive, too, a line that is not seen stays confirmed for less than thresh_stop_vis frames. */
  lemma {:induction false} UnseenLineIsForgotten(c: T.Camera, s: Sys, events: seq<Event>)
    requires Tracked(c, s.ip) && NoLineSeen(events)
    ensures var t := Run(c, s, events).ip;
      t.stopValid ==> t.stopVis <= s.ip.stopVis - |events| && |events| < 10
  {
    if events != [] {
      var front, last := events[..|events| - 1], events[|events| - 1];
      UnseenLineIsForgotten(c, s, front);
      TrackerStaysBounded(c, s, front);
      T.UnseenFrame(c, Run(c, s, front).ip, last.frame);
      hide T.Process;
      hide T.ResultOf;
      hide Act;
      hide T.InMask;
    }
  }

  // ---------------------------------------------------------------------------
  // Accounting of stop lines
  // ---------------------------------------------------------------------------

  /** The current command has had its line, but is not finished. */
  predicate Owed(x: Executor.State) {
    x.current.Some? && x.pos >= AFTER_STOP
  }

  /** Lines passed that no command has been finished with. */
  function SpareLines(s: Sys): int {
    s.passes - s.completions - T.Count(Owed(s.exec))
  }

  /** Lines confirmed near the top of the mask that have not been passed. */
  function SpareSightings(s: Sys): int {
    s.validations - s.passes - T.Count(s.ip.stopValid)
  }

  lemma StepSpends(c: T.Camera, s: Sys, ev: Event)
    requires PosInv(s.exec)
    ensures PosInv(Step(c, s, ev).exec)
    ensures SpareLines(Step(c, s, ev)) >= SpareLines(s)
    ensures SpareSightings(Step(c, s, ev)) >= SpareSightings(s)
  {
    match ev
    case Frame(frame, sens) =>
      T.PassageUsesConfirmation(c, s.ip, frame);
      ExecuteFacts(s.exec, sens, T.ResultOf(c, s.ip, frame));
    case Mission(cmds, append) =>
  }

  /** Over any stretch of any drive: the commands finished are at most the lines passed, and those at
      most the separate sightings of a line near the top of the mask, give or take what was under way
      at the start. So no sighting completes two commands. */
  lemma {:induction false} LinesAreAccounted(c: T.Camera, s: Sys, events: seq<Event>)
    requires PosInv(s.exec)
    ensures var s' := Run(c, s, events);
      && PosInv(s'.exec)
      && s'.completions - s.completions + T.Count(Owed(s'.exec)) <= s'.passes - s.passes + T.Count(Owed(s.exec))
      && s'.passes - s.passes + T.Count(s'.ip.stopValid) <= s'.validations - s.validations + T.Count(s.ip.stopValid)
  {
    hide Step;
    if events != [] {
      var front := events[..|events| - 1];
      LinesAreAccounted(c, s, front);
      StepSpends(c, Run(c, s, front), events[|events| - 1]);
    }
  }

  /** Appending to the mission, too, sends the car back before its line: a command that has had its
      line needs another one, and the line it had is spare. */
  lemma AppendingWastesLine(c: T.Camera, s: Sys, cmds: seq<string>)
    requires AllKnown(cmds)
    ensures var s' := AfterMission(c, s, cmds, true);
      && s'.exec.current == s.exec.current && s'.exec.pos == BEFORE_STOP && !Owed(s'.exec)
      && SpareLines(s') == SpareLines(s) + T.Count(Owed(s.exec))
  {
  }

  // ---------------------------------------------------------------------------
  // Dwelling
  // ---------------------------------------------------------------------------

  /** From frame j (excluded) to frame k (included) no line was passed and velocity 0 was commanded. */
  ghost predicate Still(log: seq<Entry>, j: int, k: int) {
    forall m | j < m <= k && 0 <= m < |log| :: !log[m].passed && log[m].vel == 0.0
  }

  /** The times and positions the executor goes by are those of the marked frame, since which no line
      was passed. */
  ghost predicate MarkInv(s: Sys) {
    match s.mark
    case None => s.exec.pos == BEFORE_STOP
    case Some(j) =>
      && j < |s.log|
      && s.exec.passtime == s.log[j].time
      && forall m | j < m < |s.log| :: !s.log[m].passed
  }

  /** While a stop dwells, the mark is its line and the car has been told to stand still ever since. */
  ghost predicate StopInv(s: Sys) {
    s.exec.current == Some(Stop) && s.exec.pos >= AFTER_STOP ==>
      s.mark.Some? && s.mark.value < |s.log| && s.log[s.mark.value].passed &&
      s.log[s.mark.value].vel == 0.0 && Still(s.log, s.mark.value, |s.log| - 1)
  }

  /** While a park is parked, the mark is its arrival and the car has been told to stand still since. */
  ghost predicate ParkInv(s: Sys) {
    s.exec.current == Some(Park) && s.exec.pos == PARKED ==>
      s.mark.Some? && s.mark.value < |s.log| && s.log[s.mark.value].after == PARKED &&
      Still(s.log, s.mark.value, |s.log| - 1)
  }

  /** Frame k finishes a stop that is not the last command: at least PICKUP_TIME has passed since the
      latest line, and velocity 0 was commanded from that frame to this one. */
  ghost predicate Dwelt(log: seq<Entry>, k: nat)
    requires k < |log|
  {
    exists j | 0 <= j <= k ::
      && log[j].passed && log[j].vel == 0.0 && Still(log, j, k)
      && log[k].time - log[j].time >= PICKUP_TIME
  }

  /** At frame k, at least PICKUP_TIME has passed since the car arrived at PARKED, and velocity 0 was
      commanded, and no line passed, in every frame since. */
  ghost predicate Parked(log: seq<Entry>, k: nat)
    requires k < |log|
  {
    exists j | 0 <= j < k ::
      && log[j].after == PARKED && Still(log, j, k)
      && log[k].time - log[j].time >= PICKUP_TIME
  }

  ghost predicate FrameOk(log: seq<Entry>, k: nat)
    requires k < |log|
  {
    var f := log[k];
    && (f.finished ==> f.cmd.Some? && f.at >= AFTER_STOP && f.after == BEFORE_STOP)
    && (f.finished && f.cmd == Some(Stop) && !f.last ==> Dwelt(log, k))
    && (f.cmd == Some(Park) && f.before == PARKED && f.after != PARKED ==> f.passed || Parked(log, k))
    && (f.cmd == Some(Park) && f.at == PARKED && f.after != PARKED ==> Parked(log, k))
  }

  ghost predicate LogInv(log: seq<Entry>) {
    forall k: nat | k < |log| :: FrameOk(log, k)
  }

  ghost predicate DwellInv(s: Sys) {
    MarkInv(s) && StopInv(s) && ParkInv(s) && LogInv(s.log)
  }

  lemma OldFramesStayOk(log: seq<Entry>, e: Entry, k: nat)
    requires k < |log| && FrameOk(log, k)
    ensures FrameOk(log + [e], k)
  {
    var log' := log + [e];
    assert forall m | 0 <= m < |log| :: log'[m] == log[m];
    if log[k].finished && log[k].cmd == Some(Stop) && !log[k].last {
      var j :| 0 <= j <= k && log[j].passed && log[j].vel == 0.0 && Still(log, j, k)
        && log[k].time - log[j].time >= PICKUP_TIME;
      assert log'[j].passed && Still(log', j, k);
    }
    if Parked(log, k) {
      var j :| 0 <= j < k && log[j].after == PARKED && Still(log, j, k)
        && log[k].time - log[j].time >= PICKUP_TIME;
      assert log'[j].after == PARKED && Still(log', j, k);
    }
  }

  lemma StillGrows(log: seq<Entry>, e: Entry, j: int)
    requires Still(log, j, |log| - 1)
    ensures !e.passed && e.vel == 0.0 ==> Still(log + [e], j, |log|)
    ensures Still(log + [e], |log|, |log|)
  {
  }

  lemma FrameKeepsMark(c: T.Camera, s: Sys, frame: T.Frame, sens: Sens)
    requires PosInv(s.exec) && MarkInv(s)
    ensures MarkInv(AfterFrame(c, s, frame, sens))
  {
    ExecuteFacts(s.exec, sens, T.ResultOf(c, s.ip, frame));
    hide Act;
    hide T.ResultOf;
    hide T.Process;
  }

  lemma FrameKeepsStop(c: T.Camera, s: Sys, frame: T.Frame, sens: Sens)
    requires PosInv(s.exec) && StopInv(s)
    ensures StopInv(AfterFrame(c, s, frame, sens))
  {
    var res := T.ResultOf(c, s.ip, frame);
    ExecuteFacts(s.exec, sens, res);
    var a := Arrive(s.exec, sens, res);
    if a.current == Some(Stop) {
      ActFacts(Stop, SituationOf(a, sens, res), FULL_VEL, res.laneOffset);
    }
    hide Act;
    hide Still;
    hide T.ResultOf;
    hide T.Process;
    if s.mark.Some? && Still(s.log, s.mark.value, |s.log| - 1) {
      StillGrows(s.log, EntryOf(s.exec, sens, res), s.mark.value);
    }
    NothingAfterLast(s.log + [EntryOf(s.exec, sens, res)]);
  }

  lemma NothingAfterLast(log: seq<Entry>)
    ensures Still(log, |log| - 1, |log| - 1)
  {
  }

  lemma FrameKeepsPark(c: T.Camera, s: Sys, frame: T.Frame, sens: Sens)
    requires PosInv(s.exec) && ParkInv(s)
    ensures ParkInv(AfterFrame(c, s, frame, sens))
  {
    var res := T.ResultOf(c, s.ip, frame);
    ExecuteFacts(s.exec, sens, res);
    var a := Arrive(s.exec, sens, res);
    if a.current == Some(Park) {
      ActFacts(Park, SituationOf(a, sens, res), FULL_VEL, res.laneOffset);
    }
    hide Act;
    hide Still;
    hide T.ResultOf;
    hide T.Process;
    if s.mark.Some? && Still(s.log, s.mark.value, |s.log| - 1) {
      StillGrows(s.log, EntryOf(s.exec, sens, res), s.mark.value);
    }
    NothingAfterLast(s.log + [EntryOf(s.exec, sens, res)]);
  }

  /** A new frame keeps the promises too. */
  lemma NewFrameOk(c: T.Camera, s: Sys, frame: T.Frame, sens: Sens)
    requires PosInv(s.exec) && MarkInv(s) && StopInv(s) && ParkInv(s)
    ensures FrameOk(AfterFrame(c, s, frame, sens).log, |s.log|)
  {
    var res := T.ResultOf(c, s.ip, frame);
    ExecuteFacts(s.exec, sens, res);
    var a, f := Arrive(s.exec, sens, res), EntryOf(s.exec, sens, res);
    if a.current.Some? {
      ActFacts(a.current.value, SituationOf(a, sens, res), FULL_VEL, res.laneOffset);
    }
    hide Act;
    hide Still;
    hide T.ResultOf;
    hide T.Process;
    var log := s.log + [f];
    if s.mark.Some? && Still(s.log, s.mark.value, |s.log| - 1) {
      StillGrows(s.log, f, s.mark.value);
    }
    if f.finished && f.cmd == Some(Stop) && !f.last {
      assert !res.stopPassed && s.exec.current == Some(Stop);
      assert log[s.mark.value].passed && Still(log, s.mark.value, |s.log|);
    }
    if f.cmd == Some(Park) && f.after != PARKED && (f.at == PARKED || (f.before == PARKED && !f.passed)) {
      assert !res.stopPassed && s.exec.current == Some(Park);
      assert log[s.mark.value].after == PARKED && Still(log, s.mark.value, |s.log|);
    }
  }

  lemma FrameKeepsDwell(c: T.Camera, s: Sys, frame: T.Frame, sens: Sens)
    requires PosInv(s.exec) && DwellInv(s)
    ensures DwellInv(AfterFrame(c, s, frame, sens))
  {
    FrameKeepsMark(c, s, frame, sens);
    FrameKeepsStop(c, s, frame, sens);
    FrameKeepsPark(c, s, frame, sens);
    NewFrameOk(c, s, frame, sens);
    var f := EntryOf(s.exec, sens, T.ResultOf(c, s.ip, frame));
    var s' := AfterFrame(c, s, frame, sens);
    assert s'.log == s.log + [f];
    hide FrameOk;
    hide AfterFrame;
    hide EntryOf;
    forall k: nat | k < |s'.log|
      ensures FrameOk(s'.log, k)
    {
      if k < |s.log| {
        OldFramesStayOk(s.log, f, k);
      }
    }
  }

  // ---------------------------------------------------------------------------
  // What is commanded
  // ---------------------------------------------------------------------------

  /** What each command does in a frame, told by what the frame records. Without a command the car is told
      to stand still. */
  ghost predicate Behaves(f: Entry) {
    match f.cmd
    case None => f.vel == 0.0 && f.rot == f.offset && !f.finished && f.after == f.at
    case Some(Ignore) => f.vel == FULL_VEL && f.rot == f.offset && (f.finished <==> f.at >= AFTER_STOP)
    case Some(Stop) =>
      && f.rot == f.offset
      && f.vel == (if f.at >= AFTER_STOP then 0.0
                   else if f.visible then (if f.speed < 0.3 then 0.3 else -f.speed / 3.0)
                   else FULL_VEL)
      && (f.finished <==> f.at >= AFTER_STOP && (f.last || f.waited >= PICKUP_TIME))
    case Some(Park) =>
      && f.vel == (if f.at == AFTER_STOP then SLOW_VEL else if f.at == PARKED then 0.0 else FULL_VEL)
      && f.rot == (if f.at == AFTER_STOP && f.travelled < 0.4 then 0.9
                   else if f.at == UNPARKING && f.travelled < 0.25 then LEFT
                   else f.offset)
      && (f.finished <==> (f.at == AFTER_STOP && f.travelled > 0.8 && f.last) ||
                          (f.at == UNPARKING && f.travelled >= 0.25))
      && (!f.finished ==>
            f.after == if (f.at == AFTER_STOP && f.travelled > 0.8) || (f.at == PARKED && f.waited >= PICKUP_TIME)
            then f.at + 1 else f.at)
    case Some(Enter) =>
      f.vel == FULL_VEL && f.rot == f.offset && (f.finished <==> f.at >= AFTER_STOP && f.travelled >= 0.1)
    case Some(Continue) =>
      f.vel == FULL_VEL && f.rot == f.offset && (f.finished <==> f.at >= AFTER_STOP && f.travelled >= 0.7)
    case Some(Exit) =>
      f.vel == FULL_VEL && f.rot == f.offset && (f.finished <==> f.at >= AFTER_STOP && f.travelled >= 0.5)
  }

  /** The command moved the position. */
  predicate Moves(f: Entry) { !f.finished && f.after != f.at }

  /** Frame j is the last before the command of frame k in which a line was passed or the position moved. */
  ghost predicate LastMoved(log: seq<Entry>, j: nat, k: nat)
    requires j <= k < |log|
  {
    && (if j == k then log[k].passed else (log[j].passed || Moves(log[j])) && !log[k].passed)
    && forall m | j < m < k :: !log[m].passed && !Moves(log[m])
  }

  /** Behind its line, a command goes by the time and the way since the position last changed. */
  ghost predicate Clocked(log: seq<Entry>, k: nat)
    requires k < |log|
  {
    log[k].at > BEFORE_STOP ==>
      exists j: nat | j <= k :: LastMoved(log, j, k) &&
        log[k].waited == log[k].time - log[j].time && log[k].travelled == log[k].distance - log[j].distance
  }

  ghost predicate ClockInv(s: Sys) {
    match s.mark
    case None => s.exec.pos == BEFORE_STOP
    case Some(j) =>
      && j < |s.log|
      && s.exec.passtime == s.log[j].time && s.exec.passdist == s.log[j].distance
      && (s.log[j].passed || Moves(s.log[j]))
      && forall m | j < m < |s.log| :: !s.log[m].passed && !Moves(s.log[m])
  }

  ghost predicate DutyInv(s: Sys) {
    ClockInv(s) && forall k: nat | k < |s.log| :: Behaves(s.log[k]) && Clocked(s.log, k)
  }

  lemma ActBehaves(cmd: Command, s: Situation, offset: real, f: Entry)
    requires var e := Act(cmd, s, FULL_VEL, offset);
      && f.cmd == Some(cmd) && f.offset == offset && f.vel == e.vel && f.rot == e.rot && f.finished == e.finished
      && f.last == s.lastCmd && f.at == s.pos && f.visible == s.stopVisible && f.speed == s.velocity
      && f.waited == s.postime && f.travelled == s.posdist && (!e.finished ==> f.after == e.pos)
    requires s.pos >= BEFORE_STOP
    ensures Behaves(f)
  {
  }

  lemma FrameBehaves(x: Executor.State, sens: Sens, res: T.Result)
    requires PosInv(x)
    ensures Behaves(EntryOf(x, sens, res))
    ensures Moves(EntryOf(x, sens, res)) <==> EffectIn(x, sens, res).pos != Arrive(x, sens, res).pos
  {
    var a, f := Arrive(x, sens, res), EntryOf(x, sens, res);
    ExecuteFacts(x, sens, res);
    if a.current.Some? {
      ActFacts(a.current.value, SituationOf(a, sens, res), FULL_VEL, res.laneOffset);
      hide Behaves;
      ActBehaves(a.current.value, SituationOf(a, sens, res), res.laneOffset, f);
    }
    hide Act;
  }

  lemma OldFramesStayClocked(log: seq<Entry>, e: Entry, k: nat)
    requires k < |log| && Clocked(log, k)
    ensures Clocked(log + [e], k)
  {
    var log' := log + [e];
    assert forall m | 0 <= m < |log| :: log'[m] == log[m];
    if log[k].at > BEFORE_STOP {
      var j: nat :| j <= k && LastMoved(log, j, k) &&
        log[k].waited == log[k].time - log[j].time && log[k].travelled == log[k].distance - log[j].distance;
      assert LastMoved(log', j, k);
    }
  }

  /** The executor's clock in terms of the log, one frame on. */
  lemma FrameKeepsClock(c: T.Camera, s: Sys, frame: T.Frame, sens: Sens)
    requires PosInv(s.exec) && ClockInv(s)
    ensures ClockInv(AfterFrame(c, s, frame, sens))
    ensures Clocked(AfterFrame(c, s, frame, sens).log, |s.log|)
  {
    var res := T.ResultOf(c, s.ip, frame);
    ExecuteFacts(s.exec, sens, res);
    FrameBehaves(s.exec, sens, res);
    var a, f := Arrive(s.exec, sens, res), EntryOf(s.exec, sens, res);
    var log := s.log + [f];
    hide Act;
    hide Behaves;
    hide T.ResultOf;
    hide T.Process;
    assert forall m | 0 <= m < |s.log| :: log[m] == s.log[m];
    if f.at > BEFORE_STOP {
      var j := if f.passed then |s.log| else s.mark.value;
      assert LastMoved(log, j, |s.log|);
    }
  }

  lemma FrameKeepsDuty(c: T.Camera, s: Sys, frame: T.Frame, sens: Sens)
    requires PosInv(s.exec) && DutyInv(s)
    ensures DutyInv(AfterFrame(c, s, frame, sens))
  {
    FrameKeepsClock(c, s, frame, sens);
    var f := EntryOf(s.exec, sens, T.ResultOf(c, s.ip, frame));
    FrameBehaves(s.exec, sens, T.ResultOf(c, s.ip, frame));
    var s' := AfterFrame(c, s, frame, sens);
    assert s'.log == s.log + [f];
    hide ClockInv;
    hide Behaves;
    hide Clocked;
    hide AfterFrame;
    hide EntryOf;
    forall k: nat | k < |s'.log|
      ensures Behaves(s'.log[k]) && Clocked(s'.log, k)
    {
      if k < |s.log| {
        OldFramesStayClocked(s.log, f, k);
      }
    }
  }

  /** With the mission finished, velocity 0 is commanded in every frame until the mission changes. */
  lemma {:induction false} FinishedCarStands(c: T.Camera, s: Sys, events: seq<Event>)
    requires PosInv(s.exec) && s.exec.current == None && s.exec.queue == [] && OnlyFrames(events)
    ensures var s' := Run(c, s, events);
      && PosInv(s'.exec) && s'.exec.current == None && s'.exec.queue == []
      && |s.log| <= |s'.log| && s'.log[..|s.log|] == s.log
      && forall k | |s.log| <= k < |s'.log| :: s'.log[k].cmd == None && s'.log[k].vel == 0.0
  {
    if events != [] {
      var front, last := events[..|events| - 1], events[|events| - 1];
      FinishedCarStands(c, s, front);
      var p := Run(c, s, front);
      FrameBehaves(p.exec, last.sens, T.ResultOf(c, p.ip, last.frame));
      ExecuteFacts(p.exec, last.sens, T.ResultOf(c, p.ip, last.frame));
      hide Act;
      hide T.ResultOf;
      hide T.Process;
    }
  }

  // ---------------------------------------------------------------------------
  // Every drive
  // ---------------------------------------------------------------------------

  ghost predicate Inv(s: Sys) {
    PosInv(s.exec) && FifoInv(s) && DwellInv(s) && DutyInv(s)
  }

  lemma StepKeepsInv(c: T.Camera, s: Sys, ev: Event)
    requires Inv(s)
    ensures Inv(Step(c, s, ev))
  {
    StepSpends(c, s, ev);
    match ev
    case Frame(frame, sens) =>
      hide AfterFrame;
      FrameKeepsFifo(c, s, frame, sens);
      FrameKeepsDwell(c, s, frame, sens);
      hide DutyInv;
      FrameKeepsDuty(c, s, frame, sens);
    case Mission(cmds, append) =>
      hide Behaves;
      hide Clocked;
      MissionKeepsFifo(c, s, cmds, append);
  }

  /** On every drive, after any frames and mission changes: a waiting command starts before its line;
      finished, current and queued commands are those assigned, in order; and every frame so far was
      Ok: commands finish only behind a line and put the car before the next, a stop with more to come
      has dwelt PICKUP_TIME at velocity 0, and so has a park that leaves its place, unless it passes a
      line in the very frame in which it leaves. Every command does in every frame what Behaves says, going
      by the time and the way since the position last changed; without a command the car stands still. */
  lemma {:induction false} DriveKeepsPromises(c: T.Camera, events: seq<Event>)
    ensures Inv(Run(c, Start(c), events))
  {
    hide Inv;
    if events == [] {
      StartInv(c);
    } else {
      DriveKeepsPromises(c, events[..|events| - 1]);
      StepKeepsInv(c, Run(c, Start(c), events[..|events| - 1]), events[|events| - 1]);
    }
  }

  lemma StartInv(c: T.Camera)
    ensures Inv(Start(c))
  {
  }

  /** From the start of a drive on: commands finished <= lines passed <= lines confirmed. */
  lemma CompletionsAreCovered(c: T.Camera, events: seq<Event>)
    ensures var s := Run(c, Start(c), events);
      s.completions <= s.passes <= s.validations
  {
    LinesAreAccounted(c, Start(c), events);
  }

  // ---------------------------------------------------------------------------
  // A park that passes a line
  // ---------------------------------------------------------------------------

  /** What makes a park leave its place: the pickup time, or a line passed while it stands. The line
      makes it drive off at once, at full speed. */
  lemma LeavesParked(c: T.Camera, s: Sys, frame: T.Frame, sens: Sens)
    requires s.exec.current == Some(Park) && s.exec.pos == PARKED
    ensures var s' := AfterFrame(c, s, frame, sens);
      && (s'.exec.pos != PARKED <==> T.Passes(c, s.ip, frame) || sens.time - s.exec.passtime >= PICKUP_TIME)
      && s'.log[|s.log|].vel == (if T.Passes(c, s.ip, frame) then FULL_VEL else 0.0)
  {
    hide T.Process;
  }

  /** What makes a park miss its last position: a line passed while it unparks, and nothing else. */
  lemma OvershootsWhenPassing(c: T.Camera, s: Sys, frame: T.Frame, sens: Sens)
    requires s.exec.current == Some(Park) && BEFORE_STOP <= s.exec.pos <= UNPARKING
    ensures AfterFrame(c, s, frame, sens).exec.pos > UNPARKING <==>
      s.exec.pos == UNPARKING && T.Passes(c, s.ip, frame)
  {
    hide T.Process;
  }

  /** What makes a park finish that unparks. */
  lemma FinishesUnparking(c: T.Camera, s: Sys, frame: T.Frame, sens: Sens)
    requires s.exec.current == Some(Park) && s.exec.pos == UNPARKING
    ensures AfterFrame(c, s, frame, sens).completions > s.completions <==>
      !T.Passes(c, s.ip, frame) && sens.distance - s.exec.passdist >= 0.25
  {
    hide T.Process;
  }

  ghost predicate OnlyFrames(events: seq<Event>) {
    forall i | 0 <= i < |events| :: events[i].Frame?
  }

  /** Frames at times and distances that never fall, starting from t and d. */
  ghost predicate Onward(events: seq<Event>, t: real, d: real) {
    && OnlyFrames(events)
    && (forall i | 0 <= i < |events| :: events[i].sens.time >= t && events[i].sens.distance >= d)
    && forall i, j | 0 <= i < j < |events| ::
         events[i].sens.time <= events[j].sens.time && events[i].sens.distance <= events[j].sens.distance
  }

  /** Past its last position a park stays current, and nothing is finished, until a mission change. */
  lemma {:induction false} OvershotParkNeverEnds(c: T.Camera, s: Sys, events: seq<Event>)
    requires s.exec.current == Some(Park) && s.exec.pos > UNPARKING && OnlyFrames(events)
    ensures var s' := Run(c, s, events);
      && s'.exec.current == Some(Park) && s'.exec.pos > UNPARKING
      && s'.exec.queue == s.exec.queue && s'.completions == s.completions && s'.done == s.done
  {
    if events != [] {
      var front, last := events[..|events| - 1], events[|events| - 1];
      OvershotParkNeverEnds(c, s, front);
      var p := Run(c, s, front);
      var res := T.ResultOf(c, p.ip, last.frame);
      var a := Arrive(p.exec, last.sens, res);
      ActFacts(Park, SituationOf(a, last.sens, res), FULL_VEL, res.laneOffset);
      hide Act;
      hide T.ResultOf;
      hide T.Process;
    }
  }

  lemma RunSnoc(c: T.Camera, s: Sys, events: seq<Event>, ev: Event)
    ensures Run(c, s, events + [ev]) == Step(c, Run(c, s, events), ev)
  {
    assert (events + [ev])[..|events|] == events;
  }

  lemma RunOne(c: T.Camera, s: Sys, ev: Event)
    ensures Run(c, s, [ev]) == Step(c, s, ev)
  {
    assert [ev][..0] == [];
  }

  lemma {:induction false} RunConcat(c: T.Camera, s: Sys, a: seq<Event>, b: seq<Event>)
    ensures Run(c, s, a + b) == Run(c, Run(c, s, a), b)
  {
    hide Step;
    if b == [] {
      assert a + b == a;
    } else {
      var front, last := b[..|b| - 1], b[|b| - 1];
      assert a + b == (a + front) + [last];
      RunConcat(c, s, a, front);
      RunSnoc(c, s, a + front, last);
    }
  }

  /** The frames of a drive, each with the options it meets. */
  function Shots(c: T.Camera, s: Sys, events: seq<Event>): seq<T.Shot> {
    if events == [] then []
    else
      var front, last := events[..|events| - 1], events[|events| - 1];
      Shots(c, s, front) + if last.Frame? then [T.Shot(Run(c, s, front).ip.opt, last.frame)] else []
  }

  /** Between mission changes the tracker of a drive runs through exactly these, so whatever holds of the
      tracker for any frames and any options holds on drives. */
  lemma {:induction false} TrackerRunsThroughShots(c: T.Camera, s: Sys, events: seq<Event>)
    requires OnlyFrames(events)
    ensures Run(c, s, events).ip == T.Run(c, s.ip, Shots(c, s, events)).(opt := Run(c, s, events).ip.opt)
  {
    hide T.Process;
    hide T.ResultOf;
    hide Act;
    if events != [] {
      var front, last := events[..|events| - 1], events[|events| - 1];
      TrackerRunsThroughShots(c, s, front);
      var p, shots := Run(c, s, front), Shots(c, s, front);
      assert (shots + [T.Shot(p.ip.opt, last.frame)])[..|shots|] == shots;
      assert T.Run(c, s.ip, shots).(opt := p.ip.opt) == p.ip;
    } else {
      assert s.ip.(opt := s.ip.opt) == s.ip;
    }
  }

  // ---------------------------------------------------------------------------
  // The executor object on a drive
  // ---------------------------------------------------------------------------

  ghost predicate Shows(o: Obj, s: Sys)
    reads o, o.ip
  {
    o.View() == s.exec && o.ip.View() == s.ip
  }

  /** Makes the executor go through one event. The velocity and steering on record are those commanded;
      with nothing to do that is velocity 0. */
  method Perform(o: Obj, ctrl: CtrlVal, ev: Event, ghost s: Sys)
    requires Shows(o, s)
    modifies o, o.ip, ctrl
    ensures Shows(o, Step(o.ip.camera, s, ev))
    ensures ev.Frame? ==>
      var f := AfterFrame(o.ip.camera, s, ev.frame, ev.sens).log[|s.log|];
      && ctrl.vel == f.vel && ctrl.rot == f.rot && !ctrl.velRegulate && ctrl.rotRegulate
      && (s.exec.current == None && s.exec.queue == [] ==> ctrl.vel == 0.0)
  {
    match ev {
      case Frame(frame, sens) =>
        hide Act;
        hide T.Process;
        hide T.ResultOf;
        T.ProcessKeepsOpt(o.ip.camera, s.ip, frame);
        var _ := o.ObjExecute(sens, ctrl, frame);
      case Mission(cmds, append) =>
        MissionKeepsFifo(o.ip.camera, s, cmds, append);
        var _ := o.ObjSetMission(cmds, append);
    }
  }

  /** A whole drive of the object is a run of the record, so every promise holds of it. */
  method PerformAll(o: Obj, ctrl: CtrlVal, events: seq<Event>, ghost s: Sys)
    requires Shows(o, s)
    modifies o, o.ip, ctrl
    ensures Shows(o, Run(o.ip.camera, s, events))
  {
    hide Step;
    hide Shows;
    assert events[..0] == [];
    for i := 0 to |events|
      invariant Shows(o, Run(o.ip.camera, s, events[..i]))
    {
      assert events[..i + 1][..i] == events[..i];
      Perform(o, ctrl, events[i], Run(o.ip.camera, s, events[..i]));
    }
    assert events[..|events|] == events;
  }
}
