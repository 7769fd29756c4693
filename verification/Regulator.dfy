/** The steering and speed regulator of the control module. */
module Regulator {
  import opened Protocol

  datatype Channel = Vel | Rot

  const DUTY_MAX: real := 0.10
  const DUTY_NEUTRAL: real := 0.075
  const VEL_K: real := 0.058
  const VEL_NEUTRAL: real := 0.06
  const PWM_TOP: real := 20000.0 // 16 MHz * 20 ms / 16

  function MinOf(ch: Channel): real { if ch.Vel? then -0.2 else -1.0 }

  function MaxOf(ch: Channel): real { if ch.Vel? then 0.2 else 1.0 }

  function KpDefault(ch: Channel): real { if ch.Vel? then 1.0 else 2.5 }

  function KdDefault(ch: Channel): real { if ch.Vel? then 0.0 else 1.9 }

  const KI_DEFAULT: real := 0.0

  // ---------------------------------------------------------------------------
  // What the commands mean, told by their history
  // ---------------------------------------------------------------------------

  /** What a command byte asks for. */
  datatype Kind = Error(ch: Channel) | Value(ch: Channel) | Kp(ch: Channel) | Kd(ch: Channel) | Reset | Nothing

  function KindOf(command: byte): Kind {
    var ch := if command & BF_VEL_ROT != 0 then Vel else Rot;
    if command & BF_WRITE != 0 then
      if command & BF_MOD_REG != 0 then
        if command & BF_ERR_VAL != 0 then Error(ch) else Value(ch)
      else
        if command & BF_KP_KD != 0 then Kp(ch) else Kd(ch)
    else if command == BBC_RST then Reset
    else Nothing
  }

  datatype Event = Event(kind: Kind, value: real)

  /** The errors reported on a channel since it was last set to a value or reset. */
  function Errors(log: seq<Event>, ch: Channel): seq<real> {
    if log == [] then []
    else
      var front, last := log[..|log| - 1], log[|log| - 1];
      if last.kind == Error(ch) then Errors(front, ch) + [last.value]
      else if last.kind == Value(ch) || last.kind == Reset then []
      else Errors(front, ch)
  }

  /** The gain last set on a channel since the last reset. */
  function Gain(log: seq<Event>, kind: Kind, default: real): real {
    if log == [] then default
    else
      var front, last := log[..|log| - 1], log[|log| - 1];
      if last.kind == kind then last.value
      else if last.kind == Reset then default
      else Gain(front, kind, default)
  }

  function Sum(errors: seq<real>): real {
    if errors == [] then 0.0 else Sum(errors[..|errors| - 1]) + errors[|errors| - 1]
  }

  /** The error k steps back; 0 before the first. */
  function Back(errors: seq<real>, k: nat): real {
    if k < |errors| then errors[|errors| - 1 - k] else 0.0
  }

  /** The textbook regulator on a full error history. */
  function Pid(errors: seq<real>, kp: real, ki: real, kd: real): real {
    Back(errors, 0) * kp + Sum(errors) * ki + (Back(errors, 0) - Back(errors, 1)) * kd
  }

  function Clamp(ch: Channel, v: real): real {
    if v < MinOf(ch) then MinOf(ch) else if v > MaxOf(ch) then MaxOf(ch) else v
  }

  /** The timer value for a control value: 1500 for neutral, 500 for full deflection. */
  function Pwm(v: real): int {
    ((DUTY_NEUTRAL + v * (DUTY_MAX - DUTY_NEUTRAL)) * PWM_TOP).Floor
  }

  /** The control value for a requested value: positive speeds get an offset. */
  function Requested(ch: Channel, v: real): real {
    if ch.Vel? && v > 0.0 then VEL_NEUTRAL + v * VEL_K else v
  }

  /** What a channel's timer register holds after a history of commands. */
  function Output(log: seq<Event>, ch: Channel): int {
    if log == [] then Pwm(0.0)
    else
      var front, last := log[..|log| - 1], log[|log| - 1];
      if last.kind == Error(ch) then
        Pwm(Clamp(ch, Pid(Errors(log, ch), Gain(log, Kp(ch), KpDefault(ch)), KI_DEFAULT,
                          Gain(log, Kd(ch), KdDefault(ch)))))
      else if last.kind == Value(ch) then Pwm(Clamp(ch, Requested(ch, last.value)))
      else if last.kind == Reset then Pwm(0.0)
      else Output(front, ch)
  }

  // ---------------------------------------------------------------------------
  // The code
  // ---------------------------------------------------------------------------

  class PdValues {
    var kp: real
    var ki: real
    var kd: real
    var err: real
    var errPrev: real
    var errSum: real

    constructor ()
    {
      kp, ki, kd, err, errPrev, errSum := 0.0, 0.0, 0.0, 0.0, 0.0, 0.0;
    }

    method Clear(kp: real, ki: real, kd: real)
      modifies this
      ensures this.kp == kp && this.ki == ki && this.kd == kd && err == errSum == 0.0
    {
      this.kp, this.ki, this.kd := kp, ki, kd;
      err, errPrev, errSum := 0.0, 0.0, 0.0;
    }

    /** The gains and the two running values agree with the whole history of the channel. */
    ghost predicate Follows(log: seq<Event>, ch: Channel)
      reads this
    {
      && kp == Gain(log, Kp(ch), KpDefault(ch)) && kd == Gain(log, Kd(ch), KdDefault(ch)) && ki == KI_DEFAULT
      && err == Back(Errors(log, ch), 0)
      && errSum == Sum(Errors(log, ch))
    }

    function PdCtrl(): real
      reads this
    {
      var proportion := err * kp;
      var integration := errSum * ki;
      var derivative := (err - errPrev) * kd;
      proportion + integration + derivative
    }

    predicate Starts(ch: Channel)
      reads this
    {
      kp == KpDefault(ch) && kd == KdDefault(ch) && ki == KI_DEFAULT && err == 0.0 && errSum == 0.0
    }

    /** A channel starts afresh with an empty history or after a reset. */
    lemma StartFollows(log: seq<Event>, ev: Event, ch: Channel)
      requires Starts(ch)
      ensures Follows([], ch) && Output([], ch) == Pwm(0.0)
      ensures ev.kind == Reset ==> Follows(log + [ev], ch) && Output(log + [ev], ch) == Pwm(0.0)
    {
      AfterEvent(log, ev, ch);
    }

    lemma FollowsGains(log: seq<Event>, ch: Channel)
      requires Follows(log, ch)
      ensures kp == Gain(log, Kp(ch), KpDefault(ch)) && kd == Gain(log, Kd(ch), KdDefault(ch)) && ki == KI_DEFAULT
    {
    }

    /** Takes in an error; what comes out is the textbook regulator on the whole history. */
    method TakeError(e: real, ghost log: seq<Event>, ghost ch: Channel) returns (u: real)
      requires Follows(log, ch)
      modifies this
      ensures Follows(log + [Event(Error(ch), e)], ch)
      ensures u == Pid(Errors(log + [Event(Error(ch), e)], ch), kp, ki, kd)
    {
      AfterEvent(log, Event(Error(ch), e), ch);
      ghost var was := Errors(log, ch);
      StoredIsPid(was, e, kp, ki, kd);
      hide Pid;
      hide Sum;
      hide Back;
      hide Errors;
      hide Gain;
      errPrev := err;
      err := e;
      errSum := errSum + e;
      u := PdCtrl();
    }

    /** A value request forgets the errors. */
    method Forget(ghost log: seq<Event>, ghost ev: Event, ghost ch: Channel)
      requires Follows(log, ch) && ev.kind == Value(ch)
      modifies `err, `errSum
      ensures Follows(log + [ev], ch)
    {
      err := 0.0;
      errSum := 0.0;
      AfterEvent(log, ev, ch);
    }

    method SetGain(isKp: bool, gain: real, ghost log: seq<Event>, ghost ch: Channel)
      requires Follows(log, ch)
      modifies `kp, `kd
      ensures Follows(log + [Event(if isKp then Kp(ch) else Kd(ch), gain)], ch)
    {
      if isKp {
        kp := gain;
      } else {
        kd := gain;
      }
      AfterEvent(log, Event(if isKp then Kp(ch) else Kd(ch), gain), ch);
    }

    /** Nothing that concerns another channel changes what this one follows. */
    lemma StaysUntouched(log: seq<Event>, ev: Event, ch: Channel)
      requires Follows(log, ch) && !Concerns(ev.kind, ch)
      ensures Follows(log + [ev], ch) && Output(log + [ev], ch) == Output(log, ch)
    {
      AfterEvent(log, ev, ch);
    }
  }

  /** Three running values are enough for the regulator. */
  lemma StoredIsPid(errors: seq<real>, e: real, kp: real, ki: real, kd: real)
    ensures Back(errors + [e], 0) == e && Sum(errors + [e]) == Sum(errors) + e
    ensures Pid(errors + [e], kp, ki, kd) == e * kp + (Sum(errors) + e) * ki + (e - Back(errors, 0)) * kd
  {
    assert (errors + [e])[..|errors|] == errors;
    var last, before, sum := Back(errors + [e], 0), Back(errors + [e], 1), Sum(errors + [e]);
    assert last == e && before == Back(errors, 0) && sum == Sum(errors) + e;
    assert Pid(errors + [e], kp, ki, kd) == last * kp + sum * ki + (last - before) * kd;
    hide *;
  }

  predicate Concerns(kind: Kind, ch: Channel) {
    kind == Reset || (!kind.Nothing? && kind.ch == ch)
  }

  function GainAfter(ev: Event, kind: Kind, default: real, gain: real): real {
    if ev.kind == kind then ev.value else if ev.kind == Reset then default else gain
  }

  /** The histories after one more event. */
  lemma AfterEvent(log: seq<Event>, ev: Event, ch: Channel)
    ensures Errors(log + [ev], ch) ==
      if ev.kind == Error(ch) then Errors(log, ch) + [ev.value]
      else if ev.kind == Value(ch) || ev.kind == Reset then []
      else Errors(log, ch)
    ensures forall kind, default ::
      Gain(log + [ev], kind, default) == GainAfter(ev, kind, default, Gain(log, kind, default))
    ensures Output(log + [ev], ch) ==
      if ev.kind == Error(ch) then
        Pwm(Clamp(ch, Pid(Errors(log + [ev], ch), Gain(log + [ev], Kp(ch), KpDefault(ch)), KI_DEFAULT,
                          Gain(log + [ev], Kd(ch), KdDefault(ch)))))
      else if ev.kind == Value(ch) then Pwm(Clamp(ch, Requested(ch, ev.value)))
      else if ev.kind == Reset then Pwm(0.0)
      else Output(log, ch)
  {
    assert (log + [ev])[..|log|] == log;
  }

  class Controller {
    const vel: PdValues
    const rot: PdValues
    var ocrVel: int
    var ocrRot: int
    ghost var log: seq<Event>

    ghost predicate Valid()
      reads this, vel, rot
    {
      && vel != rot
      && vel.Follows(log, Vel) && rot.Follows(log, Rot)
      && ocrVel == Output(log, Vel) && ocrRot == Output(log, Rot)
    }

    constructor ()
      ensures Valid() && fresh(vel) && fresh(rot) && log == []
    {
      vel := new PdValues();
      rot := new PdValues();
      log := [];
      new;
      ResetAll();
      vel.StartFollows([], Event(Reset, 0.0), Vel);
      rot.StartFollows([], Event(Reset, 0.0), Rot);
    }

    method ResetAll()
      requires vel != rot
      modifies `ocrVel, `ocrRot, vel, rot
      ensures vel.Starts(Vel) && rot.Starts(Rot)
      ensures ocrVel == Pwm(0.0) && ocrRot == Pwm(0.0)
    {
      vel.Clear(KpDefault(Vel), KI_DEFAULT, KdDefault(Vel));
      rot.Clear(KpDefault(Rot), KI_DEFAULT, KdDefault(Rot));
      ocrVel := (DUTY_NEUTRAL * PWM_TOP).Floor;
      ocrRot := (DUTY_NEUTRAL * PWM_TOP).Floor;
    }

    /** Limits a control value and writes it to the channel's timer register. */
    method SetOutput(ch: Channel, v: real)
      modifies `ocrVel, `ocrRot
      ensures ocrVel == if ch.Vel? then Pwm(Clamp(Vel, v)) else old(ocrVel)
      ensures ocrRot == if ch.Rot? then Pwm(Clamp(Rot, v)) else old(ocrRot)
    {
      var low, high := MinOf(ch), MaxOf(ch);
      var valueNew := if low > v then low else v;
      valueNew := if valueNew < high then valueNew else high;
      var duty := DUTY_NEUTRAL + valueNew * (DUTY_MAX - DUTY_NEUTRAL);
      if ch.Vel? {
        ocrVel := (duty * PWM_TOP).Floor;
      } else {
        ocrRot := (duty * PWM_TOP).Floor;
      }
    }

    /** The control value for a requested value. */
    method TakeValue(ch: Channel, value: real) returns (valueNew: real)
      ensures valueNew == Requested(ch, value)
    {
      if ch.Vel? {
        if value <= 0.0 {
          valueNew := value;
        } else {
          valueNew := VEL_NEUTRAL + value * VEL_K;
        }
      } else {
        valueNew := value;
      }
    }

    /** An error or a value for one channel. */
    method Regulate(ch: Channel, isError: bool, value: real)
      requires Valid()
      modifies `ocrVel, `ocrRot, `log, vel, rot
      ensures Valid() && log == old(log) + [Event(if isError then Error(ch) else Value(ch), value)]
    {
      hide Pid;
      hide Pwm;
      hide Clamp;
      hide Requested;
      hide PdValues.Follows;
      ghost var ev := Event(if isError then Error(ch) else Value(ch), value);
      ghost var was := log;
      var pdv, other := if ch.Vel? then vel else rot, if ch.Vel? then rot else vel;
      var valueNew: real;
      AfterEvent(log, ev, ch);
      other.StaysUntouched(log, ev, if ch.Vel? then Rot else Vel);
      if isError {
        valueNew := pdv.TakeError(value, log, ch);
        pdv.FollowsGains(log + [ev], ch);
      } else {
        pdv.Forget(log, ev, ch);
        valueNew := TakeValue(ch, value);
      }
      log := log + [ev];
      SetOutput(ch, valueNew);
    }

    /** A gain for one channel. */
    method SetGain(ch: Channel, isKp: bool, value: real)
      requires Valid()
      modifies `log, vel, rot
      ensures Valid() && log == old(log) + [Event(if isKp then Kp(ch) else Kd(ch), value)]
    {
      hide PdValues.Follows;
      ghost var ev := Event(if isKp then Kp(ch) else Kd(ch), value);
      AfterEvent(log, ev, ch);
      if ch.Vel? {
        rot.StaysUntouched(log, ev, Rot);
        vel.SetGain(isKp, value, log, Vel);
      } else {
        vel.StaysUntouched(log, ev, Vel);
        rot.SetGain(isKp, value, log, Rot);
      }
      log := log + [ev];
    }

    /** One round of the command loop. */
    method Dispatch(command: byte, valueRetrieved: real)
      requires Valid()
      modifies this, vel, rot
      ensures Valid() && log == old(log) + [Event(KindOf(command), valueRetrieved)]
    {
      hide PdValues.Follows;
      hide Output;
      ghost var ev := Event(KindOf(command), valueRetrieved);
      if command == BB_INVALID {
        vel.StaysUntouched(log, ev, Vel);
        rot.StaysUntouched(log, ev, Rot);
        log := log + [ev];
        return;
      }
      var ch := if command & BF_VEL_ROT != 0 then Vel else Rot;
      if command & BF_WRITE != 0 {
        if command & BF_MOD_REG != 0 {
          Regulate(ch, command & BF_ERR_VAL != 0, valueRetrieved);
        } else {
          SetGain(ch, command & BF_KP_KD != 0, valueRetrieved);
        }
      } else if command == BBC_RST {
        ResetAll();
        vel.StartFollows(log, ev, Vel);
        rot.StartFollows(log, ev, Rot);
        log := log + [ev];
      } else {
        vel.StaysUntouched(log, ev, Vel);
        rot.StaysUntouched(log, ev, Rot);
        log := log + [ev];
      }
    }
  }

  // ---------------------------------------------------------------------------
  // Every command history
  // ---------------------------------------------------------------------------

  lemma PwmBounds(ch: Channel, v: real)
    ensures ch.Vel? ==> 1400 <= Pwm(Clamp(ch, v)) <= 1600
    ensures ch.Rot? ==> 1000 <= Pwm(Clamp(ch, v)) <= 2000
  {
  }

  /** Whatever was commanded, the timer values stay within the range of the actuators. */
  lemma {:induction false} OutputsAreBounded(log: seq<Event>)
    ensures 1400 <= Output(log, Vel) <= 1600
    ensures 1000 <= Output(log, Rot) <= 2000
  {
    if log != [] {
      var front, last := log[..|log| - 1], log[|log| - 1];
      OutputsAreBounded(front);
      assert log == front + [last];
      AfterEvent(front, last, Vel);
      AfterEvent(front, last, Rot);
      PwmBounds(Vel, Pid(Errors(log, Vel), Gain(log, Kp(Vel), KpDefault(Vel)), KI_DEFAULT, Gain(log, Kd(Vel), KdDefault(Vel))));
      PwmBounds(Rot, Pid(Errors(log, Rot), Gain(log, Kp(Rot), KpDefault(Rot)), KI_DEFAULT, Gain(log, Kd(Rot), KdDefault(Rot))));
      PwmBounds(Vel, Requested(Vel, last.value));
      PwmBounds(Rot, Requested(Rot, last.value));
    }
  }

  // ---------------------------------------------------------------------------
  // Which way the outputs go
  // ---------------------------------------------------------------------------

  /** The command bytes of the bus, one by one. */
  lemma CommandsAreRead()
    ensures KindOf(BBC_RST) == Reset && KindOf(BBC_SYN) == Nothing && KindOf(BB_INVALID) == Nothing
    ensures KindOf(8) == Kd(Rot) && KindOf(9) == Kp(Rot) && KindOf(10) == Value(Rot) && KindOf(11) == Error(Rot)
    ensures KindOf(12) == Kd(Vel) && KindOf(13) == Kp(Vel) && KindOf(14) == Value(Vel) && KindOf(15) == Error(Vel)
  {
  }

  lemma PwmRises(v: real, w: real)
    requires v <= w
    ensures Pwm(v) <= Pwm(w)
  {
  }

  /** The timer values at the middle and at the ends of what the actuators take. */
  lemma PwmMarks()
    ensures Pwm(0.0) == 1500 && Pwm(1.0) == 2000 && Pwm(-1.0) == 1000 && Pwm(0.2) == 1600 && Pwm(-0.2) == 1400
    ensures forall v | v < 0.0 :: Pwm(v) < 1500
    ensures forall v | v >= 0.002 :: Pwm(v) > 1500
    ensures forall v | v >= 0.06 :: Pwm(v) >= 1530
  {
  }

  /** The output after a value request. */
  function AfterValue(log: seq<Event>, ch: Channel, v: real): int {
    Output(log + [Event(Value(ch), v)], ch)
  }

  lemma AfterValueIs(log: seq<Event>, ch: Channel, v: real)
    ensures AfterValue(log, ch, v) == Pwm(Clamp(ch, Requested(ch, v)))
  {
    AfterEvent(log, Event(Value(ch), v), ch);
    hide Pwm;
    hide Clamp;
    hide Requested;
  }

  /** It never falls when the value rises. */
  lemma ValueRaisesOutput(log: seq<Event>, ch: Channel, v: real, w: real)
    requires v <= w
    ensures AfterValue(log, ch, v) <= AfterValue(log, ch, w)
  {
    hide AfterValue;
    AfterValueIs(log, ch, v);
    AfterValueIs(log, ch, w);
    PwmRises(Clamp(ch, Requested(ch, v)), Clamp(ch, Requested(ch, w)));
    hide Pwm;
  }

  /** It is on the side of the value's sign, as soon as the value makes a step of one; every speed forward is
      at least 30 steps. A negative value always makes a step. Full values give exactly the ends. */
  lemma ValueSetsSide(log: seq<Event>, ch: Channel, v: real)
    ensures v == 0.0 ==> AfterValue(log, ch, v) == 1500
    ensures v < 0.0 ==> AfterValue(log, ch, v) < 1500
    ensures ch.Vel? && v > 0.0 ==> AfterValue(log, ch, v) >= 1530
    ensures ch.Rot? && v >= 0.002 ==> AfterValue(log, ch, v) > 1500
    ensures ch.Rot? && v >= 1.0 ==> AfterValue(log, ch, v) == 2000
    ensures ch.Rot? && v <= -1.0 ==> AfterValue(log, ch, v) == 1000
    ensures ch.Vel? && v <= -0.2 ==> AfterValue(log, ch, v) == 1400
    ensures ch.Vel? && 0.06 + 0.058 * v >= 0.2 ==> AfterValue(log, ch, v) == 1600
    ensures AfterValue(log, Vel, 1.0) == 1559
  {
    hide AfterValue;
    AfterValueIs(log, ch, v);
    AfterValueIs(log, Vel, 1.0);
    PwmMarks();
    assert Clamp(Vel, Requested(Vel, 1.0)) == 0.118 && Pwm(0.118) == 1559;
    hide Pwm;
  }

  /** The output after an error. */
  function AfterError(log: seq<Event>, ch: Channel, e: real): int {
    Output(log + [Event(Error(ch), e)], ch)
  }

  lemma AfterErrorIs(log: seq<Event>, ch: Channel, e: real, u: real)
    requires var kp, kd := Gain(log, Kp(ch), KpDefault(ch)), Gain(log, Kd(ch), KdDefault(ch));
      u == e * kp + (e - Back(Errors(log, ch), 0)) * kd
    ensures AfterError(log, ch, e) == Pwm(Clamp(ch, u))
  {
    hide *;
    var kp, kd := Gain(log, Kp(ch), KpDefault(ch)), Gain(log, Kd(ch), KdDefault(ch));
    AfterErrorUnfolds(log, ch, e);
    PidOfLastTwo(Errors(log, ch), e, kp, kd);
    assert Pid(Errors(log, ch) + [e], kp, KI_DEFAULT, kd) == u;
  }

  lemma AfterErrorUnfolds(log: seq<Event>, ch: Channel, e: real)
    ensures AfterError(log, ch, e) ==
      Pwm(Clamp(ch, Pid(Errors(log, ch) + [e], Gain(log, Kp(ch), KpDefault(ch)), KI_DEFAULT,
                        Gain(log, Kd(ch), KdDefault(ch)))))
  {
    var log' := log + [Event(Error(ch), e)];
    AfterEvent(log, Event(Error(ch), e), ch);
    hide Pwm;
    hide Clamp;
    hide Pid;
    hide Errors;
    var kp, kd := Gain(log, Kp(ch), KpDefault(ch)), Gain(log, Kd(ch), KdDefault(ch));
    assert Gain(log', Kp(ch), KpDefault(ch)) == kp && Gain(log', Kd(ch), KdDefault(ch)) == kd;
  }

  /** Only the last two errors count: the last for itself, and its change. */
  lemma PidOfLastTwo(errors: seq<real>, e: real, kp: real, kd: real)
    ensures Pid(errors + [e], kp, KI_DEFAULT, kd) == e * kp + (e - Back(errors, 0)) * kd
  {
    assert KI_DEFAULT == 0.0;
    hide *;
    StoredIsPid(errors, e, kp, KI_DEFAULT, kd);
    assert (Sum(errors) + e) * KI_DEFAULT == 0.0;
  }

  /** With gains that are not negative, the output never falls when the error rises. */
  lemma ErrorRaisesOutput(log: seq<Event>, ch: Channel, d: real, e: real)
    requires d <= e
    requires Gain(log, Kp(ch), KpDefault(ch)) >= 0.0 && Gain(log, Kd(ch), KdDefault(ch)) >= 0.0
    ensures AfterError(log, ch, d) <= AfterError(log, ch, e)
  {
    hide *;
    var kp, kd, b := Gain(log, Kp(ch), KpDefault(ch)), Gain(log, Kd(ch), KdDefault(ch)), Back(Errors(log, ch), 0);
    var u, w := d * kp + (d - b) * kd, e * kp + (e - b) * kd;
    AfterErrorIs(log, ch, d, u);
    AfterErrorIs(log, ch, e, w);
    Grows(d, e, kp);
    Grows(d - b, e - b, kd);
    ClampRises(ch, u, w);
    PwmRises(Clamp(ch, u), Clamp(ch, w));
  }

  lemma Grows(d: real, e: real, k: real)
    requires d <= e && k >= 0.0
    ensures d * k <= e * k
  {
    assert (e - d) * k >= 0.0;
  }

  lemma ClampRises(ch: Channel, v: real, w: real)
    requires v <= w
    ensures Clamp(ch, v) <= Clamp(ch, w)
  {
  }

  /** After a reset the gains are the built-in ones: a first steering error counts 4.4 times, a first speed
      error once. */
  lemma FirstErrorAfterReset(log: seq<Event>, v: real, e: real)
    ensures AfterError(log + [Event(Reset, v)], Rot, e) == Pwm(Clamp(Rot, 4.4 * e))
    ensures AfterError(log + [Event(Reset, v)], Vel, e) == Pwm(Clamp(Vel, e))
  {
    var log' := log + [Event(Reset, v)];
    AfterEvent(log, Event(Reset, v), Rot);
    AfterEvent(log, Event(Reset, v), Vel);
    assert Back([], 0) == 0.0;
    hide Pwm;
    hide Clamp;
    hide AfterError;
    hide Output;
    AfterErrorIs(log', Rot, e, 4.4 * e);
    AfterErrorIs(log', Vel, e, e);
  }

  /** A gain that is set is the one used from then on, in its own place. */
  lemma GainsAreUsed(log: seq<Event>, ch: Channel, kp: real, kd: real, v: real, e: real, u: real)
    requires u == e * kp + e * kd
    ensures AfterError(log + [Event(Kp(ch), kp)] + [Event(Kd(ch), kd)] + [Event(Value(ch), v)], ch, e) == Pwm(Clamp(ch, u))
  {
    var log1 := log + [Event(Kp(ch), kp)];
    var log2 := log1 + [Event(Kd(ch), kd)];
    var log3 := log2 + [Event(Value(ch), v)];
    AfterEvent(log, Event(Kp(ch), kp), ch);
    AfterEvent(log1, Event(Kd(ch), kd), ch);
    AfterEvent(log2, Event(Value(ch), v), ch);
    assert Gain(log3, Kp(ch), KpDefault(ch)) == kp && Gain(log3, Kd(ch), KdDefault(ch)) == kd;
    assert Errors(log3, ch) == [] && Back([], 0) == 0.0;
    hide *;
    AfterErrorIs(log3, ch, e, u);
  }

  /** The events that concern a channel. */
  function Only(log: seq<Event>, ch: Channel): seq<Event> {
    if log == [] then []
    else
      var front, last := log[..|log| - 1], log[|log| - 1];
      if Concerns(last.kind, ch) then Only(front, ch) + [last] else Only(front, ch)
  }

  /** The channels do not interfere: leaving out all commands for the other one changes neither
      history, nor gains, nor output. */
  lemma {:induction false} ChannelsAreIndependent(log: seq<Event>, ch: Channel)
    ensures Errors(Only(log, ch), ch) == Errors(log, ch)
    ensures Gain(Only(log, ch), Kp(ch), KpDefault(ch)) == Gain(log, Kp(ch), KpDefault(ch))
    ensures Gain(Only(log, ch), Kd(ch), KdDefault(ch)) == Gain(log, Kd(ch), KdDefault(ch))
    ensures Output(Only(log, ch), ch) == Output(log, ch)
  {
    hide Pid;
    hide Pwm;
    hide Clamp;
    if log != [] {
      var front, last := log[..|log| - 1], log[|log| - 1];
      ChannelsAreIndependent(front, ch);
      assert log == front + [last];
      AfterEvent(front, last, ch);
      AfterEvent(Only(front, ch), last, ch);
    }
  }

  /** After a value request the regulator starts from scratch, with the gains it had, although the
      code keeps an outdated previous error... */
  lemma FirstErrorStartsAfresh(log: seq<Event>, ch: Channel, v: real, e: real)
    ensures var log' := log + [Event(Value(ch), v)] + [Event(Error(ch), e)];
      Output(log', ch) ==
        Pwm(Clamp(ch, Pid([e], Gain(log, Kp(ch), KpDefault(ch)), KI_DEFAULT, Gain(log, Kd(ch), KdDefault(ch)))))
  {
    hide Pwm;
    hide Clamp;
    hide Pid;
    var log1 := log + [Event(Value(ch), v)];
    var log2 := log1 + [Event(Error(ch), e)];
    AfterEvent(log, Event(Value(ch), v), ch);
    AfterEvent(log1, Event(Error(ch), e), ch);
    assert Errors(log2, ch) == [e];
    assert Gain(log2, Kp(ch), KpDefault(ch)) == Gain(log, Kp(ch), KpDefault(ch));
    assert Gain(log2, Kd(ch), KdDefault(ch)) == Gain(log, Kd(ch), KdDefault(ch));
  }

  /** ...so it answers the first error by its two gains alone, each applied to the full error. */
  lemma FirstErrorIsItsOwnChange(log: seq<Event>, ch: Channel, v: real, e: real)
    ensures var u := e * Gain(log, Kp(ch), KpDefault(ch)) + e * Gain(log, Kd(ch), KdDefault(ch));
      Output(log + [Event(Value(ch), v)] + [Event(Error(ch), e)], ch) == Pwm(Clamp(ch, u))
  {
    hide *;
    FirstErrorAnswer(log, ch, v, e, e * Gain(log, Kp(ch), KpDefault(ch)) + e * Gain(log, Kd(ch), KdDefault(ch)));
  }

  lemma FirstErrorAnswer(log: seq<Event>, ch: Channel, v: real, e: real, u: real)
    requires u == e * Gain(log, Kp(ch), KpDefault(ch)) + e * Gain(log, Kd(ch), KdDefault(ch))
    ensures Output(log + [Event(Value(ch), v)] + [Event(Error(ch), e)], ch) == Pwm(Clamp(ch, u))
  {
    hide *;
    var kp, kd := Gain(log, Kp(ch), KpDefault(ch)), Gain(log, Kd(ch), KdDefault(ch));
    FirstErrorStartsAfresh(log, ch, v, e);
    PidOfOne(e, kp, kd);
    assert Pid([e], kp, KI_DEFAULT, kd) == u;
  }

  /** With one error in the history, that error is its own change, and its sum has no weight. */
  lemma PidOfOne(e: real, kp: real, kd: real)
    ensures Pid([e], kp, KI_DEFAULT, kd) == e * kp + e * kd
  {
    SumOfOne(e);
    var last, before := Back([e], 0), Back([e], 1);
    assert last == e && before == 0.0;
    assert Pid([e], kp, KI_DEFAULT, kd) == last * kp + Sum([e]) * KI_DEFAULT + (last - before) * kd;
  }

  lemma SumOfOne(e: real)
    ensures Sum([e]) == e
  {
    assert [e][..0] == [];
  }
}
