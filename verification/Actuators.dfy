/** What the orders on the bus do to the car: the control module at the other end of its link. */
module Actuators {
  import opened Protocol
  import opened SlaveAutomaton
  import opened SpiMaster
  import opened OrderBus
  import OrderSteps
  import BusRuns
  import R = Regulator

  /** The commands a slave was handed, as the regulator counts them. */
  function Reported(handed: seq<Delivery>, decode: seq<byte> -> real): seq<R.Event> {
    seq(|handed|, i requires 0 <= i < |handed| => R.Event(R.KindOf(handed[i].cmd), decode(handed[i].data)))
  }

  /** The control module's command loop, on the commands it is handed. */
  method Obey(handed: seq<Delivery>, decode: seq<byte> -> real) returns (unit: R.Controller)
    ensures fresh(unit) && fresh(unit.vel) && fresh(unit.rot)
    ensures unit.Valid() && unit.log == Reported(handed, decode)
  {
    hide R.Output;
    hide R.KindOf;
    hide R.PdValues.Follows;
    unit := new R.Controller();
    for i := 0 to |handed|
      invariant fresh(unit) && fresh(unit.vel) && fresh(unit.rot)
      invariant unit.Valid() && unit.log == Reported(handed[..i], decode)
    {
      unit.Dispatch(handed[i].cmd, decode(handed[i].data));
      assert Reported(handed[..i + 1], decode) ==
        Reported(handed[..i], decode) + [R.Event(R.KindOf(handed[i].cmd), decode(handed[i].data))];
    }
    assert handed[..|handed|] == handed;
  }

  /** Over every interleaving of the bus: both timer outputs are what the regulator's history says of exactly
      the attempts made at orders for the control module, with the data these were scheduled with; and
      they are within the range of the actuators. */
  method OperateModule(toSens: nat -> byte, toCtrl: nat -> byte, actions: seq<BusRuns.Action>, decode: seq<byte> -> real)
    returns (bus: Bus, sens: Link, ctrl: Link, unit: R.Controller)
    requires forall i | 0 <= i < |actions| :: BusRuns.Sensible(actions[i])
    ensures BusRuns.Working(bus, sens, ctrl) && BusRuns.InOrder(bus.history)
    ensures BusRuns.Recorded(actions, bus.history, bus.values, bus.handlers, sens.readings)
    ensures var tried := OrderSteps.Run(OrderSteps.START, bus.history).tried;
      && (forall e | e in tried && e.cmd.write :: e.num < |bus.values|)
      && var log := Reported(BusRuns.HandedFor(Ctrl, tried, bus.values), decode);
         unit.ocrVel == R.Output(log, R.Vel) && unit.ocrRot == R.Output(log, R.Rot)
    ensures 1400 <= unit.ocrVel <= 1600 && 1000 <= unit.ocrRot <= 2000
  {
    bus, sens, ctrl := BusRuns.Operate(toSens, toCtrl, actions);
    HandedAsTried(bus, sens, ctrl);
    hide *;
    unit := Obey(ctrl.handed, decode);
    ShowsOutputs(unit);
    R.OutputsAreBounded(unit.log);
  }

  lemma HandedAsTried(bus: Bus, sens: Link, ctrl: Link)
    requires BusRuns.Working(bus, sens, ctrl)
    ensures OrderSteps.Allowed(OrderSteps.START, bus.history)
    ensures var tried := OrderSteps.Run(OrderSteps.START, bus.history).tried;
      && (forall e | e in tried && e.cmd.write :: e.num < |bus.values|)
      && ctrl.handed == BusRuns.HandedFor(Ctrl, tried, bus.values)
  {
    hide BusRuns.HandedFor;
    hide OrderSteps.Run;
    hide OrderSteps.Allowed;
  }

  lemma ShowsOutputs(unit: R.Controller)
    requires unit.Valid()
    ensures unit.ocrVel == R.Output(unit.log, R.Vel) && unit.ocrRot == R.Output(unit.log, R.Rot)
  {
  }

  /** Once velocity 0 has been asked for, the speed output is neutral until something else concerns the speed. */
  lemma {:induction false} StandsStill(log: seq<R.Event>, more: seq<R.Event>)
    requires forall ev | ev in more :: !R.Concerns(ev.kind, R.Vel)
    ensures R.Output(log + [R.Event(R.Value(R.Vel), 0.0)] + more, R.Vel) == 1500
  {
    var stop := R.Event(R.Value(R.Vel), 0.0);
    if more == [] {
      R.AfterEvent(log, stop, R.Vel);
      assert log + [stop] + more == log + [stop];
      Neutral();
    } else {
      var front, last := more[..|more| - 1], more[|more| - 1];
      assert last in more && more == front + [last];
      StandsStill(log, front);
      R.AfterEvent(log + [stop] + front, last, R.Vel);
      assert log + [stop] + more == log + [stop] + front + [last];
    }
  }

  lemma Neutral()
    ensures R.Pwm(R.Clamp(R.Vel, R.Requested(R.Vel, 0.0))) == 1500
  {
  }
}
