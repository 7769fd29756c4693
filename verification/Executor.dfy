/** The mission executor: a command queue and a position that moves with every passed stop line. */
module Executor {
  import opened Commands
  import opened Wrappers
  import Tracker

  const PICKUP_TIME: real := 5.0
  const SLOW_VEL: real := 0.4
  const FULL_VEL: real := 0.6
  const LEFT: real := -1.0

  const BEFORE_STOP := 1
  const AFTER_STOP := 2
  const PARKED := 3
  const UNPARKING := 4

  lemma ConstantsAre()
    ensures PICKUP_TIME == 5.0 && SLOW_VEL == 0.4 && FULL_VEL == 0.6 && LEFT == -1.0
  {
  }

  datatype Sens = Sens(time: real, distance: real, velocity: real)

  // ---------------------------------------------------------------------------
  // One command in one frame
  // ---------------------------------------------------------------------------

  /** What a command sees. */
  datatype Situation = Situation(velocity: real, stopVisible: bool, lastCmd: bool,
                                 pos: int, postime: real, posdist: real)

  /** What a command does: whether it is finished, the position it leaves, the control values, and
      the lane lines to ignore. */
  datatype Effect = Effect(finished: bool, pos: int, vel: real, rot: real, ignoreRight: bool, ignoreLeft: bool)

  function Act(cmd: Command, s: Situation, vel: real, rot: real): Effect {
    var idle := Effect(false, s.pos, vel, rot, false, false);
    var visible := s.pos == BEFORE_STOP && s.stopVisible;
    var after := s.pos >= AFTER_STOP;
    match cmd
    case Ignore => idle.(finished := after)
    case Stop =>
      if visible then idle.(vel := if s.velocity < 0.3 then 0.3 else -s.velocity / 3.0)
      else if after then idle.(vel := 0.0, finished := s.lastCmd || s.postime >= PICKUP_TIME)
      else idle
    case Park =>
      if s.pos == BEFORE_STOP then idle.(ignoreLeft := s.stopVisible)
      else if s.pos == AFTER_STOP then
        var drive := idle.(vel := SLOW_VEL, ignoreLeft := true);
        if s.posdist < 0.4 then drive.(rot := 0.9)
        else if s.posdist > 0.8 then
          if s.lastCmd then drive.(finished := true) else drive.(pos := PARKED)
        else drive
      else if s.pos == PARKED then
        idle.(vel := 0.0, pos := if s.postime >= PICKUP_TIME then UNPARKING else PARKED)
      else if s.pos == UNPARKING then
        if s.posdist < 0.25 then idle.(ignoreLeft := true, rot := LEFT)
        else idle.(ignoreLeft := true, finished := true)
      else idle
    case Enter =>
      if after then if s.posdist < 0.1 then idle.(ignoreLeft := true) else idle.(finished := true)
      else idle
    case Continue =>
      if visible then idle.(ignoreRight := true)
      else if after then if s.posdist < 0.7 then idle.(ignoreRight := true) else idle.(finished := true)
      else idle
    case Exit =>
      if visible then idle.(ignoreLeft := true)
      else if after then if s.posdist < 0.5 then idle.(ignoreLeft := true) else idle.(finished := true)
      else idle
  }

  class CmdState {
    const velocity: real
    const stopVisible: bool
    const lastCmd: bool
    const postime: real
    const posdist: real
    var pos: int

    constructor (s: Situation)
      ensures View() == s
    {
      velocity, stopVisible, lastCmd := s.velocity, s.stopVisible, s.lastCmd;
      postime, posdist, pos := s.postime, s.posdist, s.pos;
    }

    function View(): Situation
      reads this
    {
      Situation(velocity, stopVisible, lastCmd, pos, postime, posdist)
    }
  }

  class CtrlVal {
    var vel: real
    var velRegulate: bool
    var rot: real
    var rotRegulate: bool

    constructor ()
    {
      vel, velRegulate, rot, rotRegulate := 0.0, false, 0.0, false;
    }
  }

  class IpOpt {
    var ignoreRight: bool
    var ignoreLeft: bool

    constructor ()
      ensures !ignoreRight && !ignoreLeft
    {
      ignoreRight, ignoreLeft := false, false;
    }
  }

  function EffectOf(finished: bool, s: CmdState, c: CtrlVal, i: IpOpt): Effect
    reads s, c, i
  {
    Effect(finished, s.pos, c.vel, c.rot, i.ignoreRight, i.ignoreLeft)
  }

  method CmdIgnore(s: CmdState, c: CtrlVal, i: IpOpt) returns (finished: bool)
    requires !i.ignoreRight && !i.ignoreLeft
    ensures EffectOf(finished, s, c, i) == Act(Ignore, s.View(), c.vel, c.rot)
    ensures finished <==> s.pos >= AFTER_STOP
  {
    if s.pos >= AFTER_STOP {
      return true;
    }
    return false;
  }

  method CmdStop(s: CmdState, c: CtrlVal, i: IpOpt) returns (finished: bool)
    requires !i.ignoreRight && !i.ignoreLeft
    modifies c`vel
    ensures EffectOf(finished, s, c, i) == Act(Stop, s.View(), old(c.vel), c.rot)
    ensures finished <==> s.pos >= AFTER_STOP && (s.lastCmd || s.postime >= PICKUP_TIME)
    ensures s.pos >= AFTER_STOP ==> c.vel == 0.0
    ensures s.pos < AFTER_STOP && !s.stopVisible ==> c.vel == old(c.vel)
  {
    if s.pos == BEFORE_STOP && s.stopVisible {
      c.vel := -s.velocity / 3.0;
      if s.velocity < 0.3 {
        c.vel := 0.3;
      }
    } else if s.pos >= AFTER_STOP {
      c.vel := 0.0;
      if s.lastCmd || s.postime >= PICKUP_TIME {
        return true;
      }
    }
    return false;
  }

  method CmdPark(s: CmdState, c: CtrlVal, i: IpOpt) returns (finished: bool)
    requires !i.ignoreRight && !i.ignoreLeft
    modifies s`pos, c`vel, c`rot, i
    ensures EffectOf(finished, s, c, i) == Act(Park, old(s.View()), old(c.vel), old(c.rot))
    ensures finished <==>
      || (old(s.pos) == AFTER_STOP && s.posdist > 0.8 && s.lastCmd)
      || (old(s.pos) == UNPARKING && s.posdist >= 0.25)
    ensures i.ignoreLeft <==>
      (old(s.pos) == BEFORE_STOP && s.stopVisible) || old(s.pos) == AFTER_STOP || old(s.pos) == UNPARKING
    ensures !i.ignoreRight
    ensures s.pos != old(s.pos) <==>
      || (old(s.pos) == AFTER_STOP && s.posdist > 0.8 && !s.lastCmd)
      || (old(s.pos) == PARKED && s.postime >= PICKUP_TIME)
  {
    if s.pos == BEFORE_STOP {
      if s.stopVisible {
        i.ignoreLeft := true;
      }
    } else if s.pos == AFTER_STOP {
      c.vel := SLOW_VEL;
      i.ignoreLeft := true;
      if s.posdist < 0.4 {
        c.rot := 0.9;
      } else if s.posdist > 0.8 {
        if s.lastCmd {
          return true;
        } else {
          s.pos := PARKED;
        }
      }
    } else if s.pos == PARKED {
      c.vel := 0.0;
      if s.postime >= PICKUP_TIME {
        s.pos := UNPARKING;
      }
    } else if s.pos == UNPARKING {
      i.ignoreLeft := true;
      if s.posdist < 0.25 {
        c.rot := LEFT;
      } else {
        return true;
      }
    }
    return false;
  }

  method CmdEnter(s: CmdState, c: CtrlVal, i: IpOpt) returns (finished: bool)
    requires !i.ignoreRight && !i.ignoreLeft
    modifies i
    ensures EffectOf(finished, s, c, i) == Act(Enter, s.View(), c.vel, c.rot)
    ensures finished <==> s.pos >= AFTER_STOP && s.posdist >= 0.1
    ensures i.ignoreLeft <==> s.pos >= AFTER_STOP && s.posdist < 0.1
    ensures !i.ignoreRight
  {
    if s.pos >= AFTER_STOP {
      if s.posdist < 0.1 {
        i.ignoreLeft := true;
        return false;
      } else {
        return true;
      }
    }
    return false;
  }

  method CmdContinue(s: CmdState, c: CtrlVal, i: IpOpt) returns (finished: bool)
    requires !i.ignoreRight && !i.ignoreLeft
    modifies i
    ensures EffectOf(finished, s, c, i) == Act(Continue, s.View(), c.vel, c.rot)
    ensures finished <==> s.pos >= AFTER_STOP && s.posdist >= 0.7
    ensures i.ignoreRight <==> (s.pos == BEFORE_STOP && s.stopVisible) || (s.pos >= AFTER_STOP && s.posdist < 0.7)
    ensures !i.ignoreLeft
  {
    if s.pos == BEFORE_STOP && s.stopVisible {
      i.ignoreRight := true;
    }
    if s.pos >= AFTER_STOP {
      if s.posdist < 0.7 {
        i.ignoreRight := true;
        return false;
      } else {
        return true;
      }
    }
    return false;
  }

  method CmdExit(s: CmdState, c: CtrlVal, i: IpOpt) returns (finished: bool)
    requires !i.ignoreRight && !i.ignoreLeft
    modifies i
    ensures EffectOf(finished, s, c, i) == Act(Exit, s.View(), c.vel, c.rot)
    ensures finished <==> s.pos >= AFTER_STOP && s.posdist >= 0.5
    ensures i.ignoreLeft <==> (s.pos == BEFORE_STOP && s.stopVisible) || (s.pos >= AFTER_STOP && s.posdist < 0.5)
    ensures !i.ignoreRight
  {
    if s.pos == BEFORE_STOP && s.stopVisible {
      i.ignoreLeft := true;
    } else if s.pos >= AFTER_STOP {
      if s.posdist < 0.5 {
        i.ignoreLeft := true;
        return false;
      } else {
        return true;
      }
    }
    return false;
  }

  method RunCommand(cmd: Command, s: CmdState, c: CtrlVal, i: IpOpt) returns (finished: bool)
    requires !i.ignoreRight && !i.ignoreLeft
    modifies s`pos, c`vel, c`rot, i
    ensures EffectOf(finished, s, c, i) == Act(cmd, old(s.View()), old(c.vel), old(c.rot))
  {
    match cmd
    case Ignore => finished := CmdIgnore(s, c, i);
    case Stop => finished := CmdStop(s, c, i);
    case Park => finished := CmdPark(s, c, i);
    case Enter => finished := CmdEnter(s, c, i);
    case Continue => finished := CmdContinue(s, c, i);
    case Exit => finished := CmdExit(s, c, i);
  }

  /** Whatever the situation: no command ignores both lane lines, only stop and park change the velocity,
      only park the steering, and in the frame in which it finishes only park still ignores a line. */
  lemma CommandsKeepToTheirOwn(cmd: Command, s: Situation, vel: real, rot: real)
    ensures var e := Act(cmd, s, vel, rot);
      && !(e.ignoreRight && e.ignoreLeft)
      && (e.ignoreRight ==> cmd == Continue) && (e.ignoreLeft ==> cmd in {Park, Enter, Exit})
      && (e.vel != vel ==> cmd in {Stop, Park}) && (e.rot != rot ==> cmd == Park)
      && (e.finished && (e.ignoreLeft || e.ignoreRight) ==> cmd == Park)
  {
  }

  // ---------------------------------------------------------------------------
  // Missions
  // ---------------------------------------------------------------------------

  predicate Known(name: string) {
    FindFrom(name, 0) < |TABLE|
  }

  predicate AllKnown(names: seq<string>) {
    forall i | 0 <= i < |names| :: Known(names[i])
  }

  /** The queue that a list of names stands for; none if a name is unknown. */
  function Queue(names: seq<string>): (queue: seq<Command>)
    ensures queue == [] || (AllKnown(names) && |queue| == |names|)
  {
    if AllKnown(names) then seq(|names|, i requires 0 <= i < |names| => TABLE[FindFrom(names[i], 0)]) else []
  }

  method QueueCreate(cmds: seq<string>) returns (queue: seq<Command>)
    ensures queue == Queue(cmds)
  {
    hide FindFrom;
    queue := [];
    for i := 0 to |cmds|
      invariant |queue| == i
      invariant forall k | 0 <= k < i :: Known(cmds[k]) && queue[k] == TABLE[FindFrom(cmds[k], 0)]
    {
      var current := LookUp(cmds[i]);
      if current == None {
        return [];
      }
      queue := queue + [current.value];
    }
  }

  /** Compares a name with every entry of the table. */
  method LookUp(name: string) returns (current: Option<Command>)
    ensures current.Some? <==> Known(name)
    ensures current.Some? ==> current.value == TABLE[FindFrom(name, 0)]
  {
    current := None;
    for j := 0 to |TABLE|
      invariant FindFrom(name, 0) == FindFrom(name, j)
    {
      if name == Name(TABLE[j]) {
        return Some(TABLE[j]);
      }
    }
  }

  /** The names of a mission are read back as the same mission. */
  lemma NamesQueue(commands: seq<Command>)
    ensures AllKnown(Names(commands)) && Queue(Names(commands)) == commands
  {
    forall i | 0 <= i < |commands|
      ensures Known(Names(commands)[i]) && TABLE[FindFrom(Names(commands)[i], 0)] == commands[i]
    {
      NameIdentifies(commands[i]);
    }
  }

  // ---------------------------------------------------------------------------
  // The executor
  // ---------------------------------------------------------------------------

  datatype State = State(current: Option<Command>, queue: seq<Command>, passtime: real, passdist: real, pos: int)

  function SetMission(x: State, cmds: seq<string>, append: bool): State {
    var queue := Queue(cmds);
    if cmds != [] && queue == [] then x
    else
      State(if append then x.current else None,
            if append then x.queue + queue else queue,
            0.0, 0.0, BEFORE_STOP)
  }

  /** Makes the first queued command current if there is none. */
  function Dispatch(x: State): State {
    if x.current.None? && x.queue != [] then x.(current := Some(x.queue[0]), queue := x.queue[1..]) else x
  }

  /** Moves to a position, if it is a new one, and notes when and where. */
  function MoveTo(x: State, pos: int, sens: Sens): State {
    if pos == x.pos then x else x.(pos := pos, passtime := sens.time, passdist := sens.distance)
  }

  function SituationOf(x: State, sens: Sens, res: Tracker.Result): Situation {
    Situation(sens.velocity, res.stopVisible, x.queue == [], x.pos, sens.time - x.passtime, sens.distance - x.passdist)
  }

  /** The state after dispatch and a possibly passed line, in which the current command runs. */
  function Arrive(x: State, sens: Sens, res: Tracker.Result): State {
    var d := Dispatch(x);
    if res.stopPassed then MoveTo(d, d.pos + 1, sens) else d
  }

  /** The current command's effect in a frame, or no movement if there is none. */
  function EffectIn(x: State, sens: Sens, res: Tracker.Result): Effect {
    var a := Arrive(x, sens, res);
    if a.current.None? then Effect(false, a.pos, 0.0, res.laneOffset, false, false)
    else Act(a.current.value, SituationOf(a, sens, res), FULL_VEL, res.laneOffset)
  }

  /** A finished command makes way for the next. */
  function Finish(x: State, e: Effect): State {
    if e.finished then x.(pos := if x.pos <= AFTER_STOP then x.pos - 1 else BEFORE_STOP, current := None) else x
  }

  function Execute(x: State, sens: Sens, res: Tracker.Result): State {
    var e := EffectIn(x, sens, res);
    Finish(MoveTo(Arrive(x, sens, res), e.pos, sens), e)
  }

  class Obj {
    const ip: Tracker.Ip
    var active: bool
    var current: Option<Command>
    var queue: seq<Command>
    var passtime: real
    var passdist: real
    var pos: int

    function View(): State
      reads this
    {
      State(current, queue, passtime, passdist, pos)
    }

    constructor (camera: Tracker.Camera)
      ensures View() == State(None, [], 0.0, 0.0, BEFORE_STOP) && !active
      ensures ip.camera == camera && ip.View() == Tracker.Reset(camera) && fresh(ip)
    {
      ip := new Tracker.Ip(camera);
      active, current, queue, passtime, passdist, pos := false, None, [], 0.0, 0.0, 0;
      new;
      var _ := ObjSetMission([], false);
    }

    method ObjSetMission(cmds: seq<string>, append: bool) returns (ok: bool)
      modifies this, ip
      ensures View() == SetMission(old(View()), cmds, append) && active == old(active)
      ensures ok <==> AllKnown(cmds)
      ensures ip.View() == if ok then Tracker.Reset(ip.camera) else old(ip.View())
    {
      var newQueue := QueueCreate(cmds);
      if |cmds| == 0 || newQueue != [] {
        if append {
          if queue != [] {
            queue := queue + newQueue;
          } else {
            queue := newQueue;
          }
        } else {
          current := None;
          queue := newQueue;
        }
        passtime := 0.0;
        passdist := 0.0;
        pos := BEFORE_STOP;
        ip.IpReset();
        return true;
      } else {
        return false;
      }
    }

    /** Runs one frame: one step of the tracker, then one step of the current command. */
    method ObjExecute(sens: Sens, ctrl: CtrlVal, frame: Tracker.Frame) returns (res: Tracker.Result)
      modifies this, ip, ctrl
      ensures res == Tracker.ResultOf(ip.camera, old(ip.View()), frame)
      ensures View() == Execute(old(View()), sens, res) && active == old(active)
      ensures var e := EffectIn(old(View()), sens, res);
        && ctrl.vel == e.vel && ctrl.rot == e.rot && !ctrl.velRegulate && ctrl.rotRegulate
        && ip.View() == Tracker.Process(ip.camera, old(ip.View()), frame).(
             opt := if Dispatch(old(View())).current.None? then old(ip.opt)
                    else Tracker.Opt(e.ignoreRight, e.ignoreLeft, false))
    {
      hide Act;
      hide Tracker.Process;
      hide Tracker.ResultOf;
      if current == None && queue != [] {
        current := Some(queue[0]);
        queue := queue[1..];
      }
      Tracker.ProcessKeepsOpt(ip.camera, ip.View(), frame);
      res := ip.IpProcess(frame);
      if res.stopPassed {
        pos := pos + 1;
        passtime := sens.time;
        passdist := sens.distance;
      }
      ctrl.vel := 0.0;
      ctrl.velRegulate := false;
      ctrl.rot := res.laneOffset;
      ctrl.rotRegulate := true;
      if current != None {
        RunCurrent(sens, ctrl, res);
      }
    }

    /** Lets the current command act, then moves on if it is finished. */
    method RunCurrent(sens: Sens, ctrl: CtrlVal, res: Tracker.Result)
      requires current.Some?
      modifies `current, `pos, `passtime, `passdist, ip`opt, ctrl`vel, ctrl`rot
      ensures var a := old(View());
        var e := Act(a.current.value, SituationOf(a, sens, res), FULL_VEL, old(ctrl.rot));
        && View() == Finish(MoveTo(a, e.pos, sens), e)
        && ctrl.vel == e.vel && ctrl.rot == e.rot
        && ip.opt == Tracker.Opt(e.ignoreRight, e.ignoreLeft, false)
    {
      hide Act;
      hide Queue;
      hide SetMission;
      ctrl.vel := FULL_VEL;
      var state := new CmdState(
        Situation(sens.velocity, res.stopVisible, queue == [], pos, sens.time - passtime, sens.distance - passdist));
      var opt := new IpOpt();
      var cmdFinished := RunCommand(current.value, state, ctrl, opt);
      ip.IpSetOpt(Tracker.Opt(opt.ignoreRight, opt.ignoreLeft, false));
      if pos != state.pos {
        pos := state.pos;
        passtime := sens.time;
        passdist := sens.distance;
      }
      if cmdFinished {
        if pos <= AFTER_STOP {
          pos := pos - 1;
        } else {
          pos := BEFORE_STOP;
        }
        current := None;
      }
    }
  }
}
