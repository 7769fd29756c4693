/** The bus thread's loop body: the order queue on one side, the links to the slaves on the other. */
module BusWorker {
  import opened Protocol
  import opened OrderBus
  import opened OrderSteps
  import opened SlaveAutomaton
  import opened SpiMaster

  /** One round: take the first order, send it, then deliver it or put it back.
      - A failed order leaves its slave waiting for a command.
      - If its slave waits for a command, a write order is delivered in this very round, with exactly
        the bytes that were scheduled; a GET is too, and its handler is given the sensor data. */
  method Round(bus: Bus, sens: Link, ctrl: Link) returns (success: bool)
    requires bus.Valid() && bus.order == null && !bus.quit
    requires sens.Valid() && ctrl.Valid() && sens.slave.Sens? && ctrl.slave.Ctrl?
    modifies bus, bus.nodes, sens, ctrl
    ensures bus.Valid() && bus.order == null && bus.quit == old(bus.terminate)
    ensures sens.Valid() && ctrl.Valid() && bus.values == old(bus.values) && bus.handlers == old(bus.handlers)
    ensures old(bus.queue) == null ==> bus.history == old(bus.history) + [Take]
    ensures old(bus.queue) != null ==>
      var o := old(bus.queue);
      var link := if o.bc.slave.Sens? then sens else ctrl;
      && bus.history == old(bus.history) + [Take] + [if success then Succeed else Fail]
      && (!success ==> link.phase.Idle?)
      && (old(link.phase).Idle? && InTable(o.bc) && o.bc.write ==>
            && success
            && link.phase.Idle?
            && o.num < |old(bus.values)|
            && link.handed == old(link.handed) + [Delivery(o.bc.cmd, old(bus.values)[o.num])])
      && (old(link.phase).Idle? && o.bc == Protocol.Entry(Sens, BBS_GET) ==>
            && success
            && link.phase.Idle?
            && o.srcDst == old(link.sensors)
            && bus.told == old(bus.told) + if o.handler then [(o.bc, old(link.sensors))] else [])
  {
    hide Bus.Valid;
    hide Link.Valid;
    success := false;
    bus.WorkerTake();
    if bus.order != null {
      assert forall i | 0 <= i < |bus.nodes| :: bus.nodes[i] == old(bus.nodes)[i + 1];
      success := Send(bus, if bus.order.bc.slave.Sens? then sens else ctrl);
    }
  }

  /** Sends the order the worker holds, and settles what becomes of it. It counts as delivered exactly if
      the slave's answer, whatever the slave was doing, is what the transaction asks for: for a write, with
      the data it was scheduled with, the acknowledgement. */
  method Send(bus: Bus, link: Link) returns (success: bool)
    requires bus.Valid() && bus.order != null
    requires link.Valid() && link.slave == bus.order.bc.slave
    modifies bus, bus.nodes`next, bus.order, link
    ensures bus.Valid() && bus.order == null && bus.quit == old(bus.quit)
    ensures link.Valid() && bus.values == old(bus.values) && bus.handlers == old(bus.handlers)
    ensures bus.history == old(bus.history) + [if success then Succeed else Fail]
    ensures link.sensors == old(link.sensors) && link.readings == old(link.readings)
    ensures bus.told == old(bus.told) +
      if success && old(bus.order).handler then [(old(bus.order).bc, old(bus.order).srcDst)] else []
    ensures success <==>
      Answered(link.slave, old(link.sensors), old(link.phase), link.noise, old(link.t), old(bus.order).bc,
               old(bus.order.srcDst))
    ensures old(bus.order).num < |bus.values|
    ensures old(bus.order).bc.write ==>
      old(bus.order).srcDst == old(bus.order.srcDst) == bus.values[old(bus.order).num]
    ensures !success ==> link.phase.Idle?
    ensures link.slave.Ctrl? && Quiet(link.slave, link.noise) && old(bus.order).bc.write && success ==>
      link.phase.Idle? && |link.handed| > |old(link.handed)|
    ensures
      var o := old(bus.order);
      && (old(link.phase).Idle? && InTable(o.bc) ==>
            && link.phase.Idle?
            && (o.bc.write ==> success && o.num < |old(bus.values)|)
            && link.handed == old(link.handed) +
                 [Delivery(o.bc.cmd, if o.bc.write then old(bus.values)[o.num] else [])])
      && (old(link.phase).Idle? && o.bc == Protocol.Entry(Sens, BBS_GET) ==>
            && success
            && o.srcDst == old(link.sensors)
            && bus.told == old(bus.told) + if o.handler then [(o.bc, old(link.sensors))] else [])
      && forall i | 0 <= i < |bus.nodes| :: bus.nodes[i] in old(bus.nodes) || bus.nodes[i] == o
  {
    hide Bus.Linked;
    hide Bus.Shows;
    hide Link.Valid;
    hide Answered;
    hide Quiet;
    var o := bus.order;
    var dst;
    success, dst := link.Attempt(o.bc, o.srcDst);
    if !o.bc.write {
      bus.StoreReceived(dst);
    }
    bus.WorkerDone(success);
  }

  /** Resynchronises both slaves: wherever a broken transaction left them, both wait for a command
      afterwards, and at most the one command under way in each is still handed over. */
  method BusSync(sens: Link, ctrl: Link)
    requires sens.Valid() && ctrl.Valid() && sens.slave.Sens? && ctrl.slave.Ctrl?
    modifies sens, ctrl
    ensures sens.Valid() && ctrl.Valid() && sens.phase.Idle? && ctrl.phase.Idle?
    ensures |sens.handed| <= |old(sens.handed)| + 1 && |ctrl.handed| <= |old(ctrl.handed)| + 1
    ensures sens.sensors == old(sens.sensors)
  {
    sens.SpiSync(MAX_DATA_LENGTH + 2);
    ctrl.SpiSync(MAX_DATA_LENGTH + 2);
  }
}
