/** The order queue as the linked list that the threads share. Every method is one locked section
    of the code, and the history records which sections have run, in which order. */
module OrderBus {
  import opened Protocol
  import opened OrderSteps

  class Order {
    const bc: BusCmd
    const handler: bool // whether something is to be told when the order is done
    ghost const num: nat
    var srcDst: seq<byte>
    var next: Order?

    constructor (bc: BusCmd, srcDst: seq<byte>, handler: bool, ghost num: nat)
      ensures this.bc == bc && this.srcDst == srcDst && this.handler == handler && this.num == num && next == null
    {
      this.bc, this.srcDst, this.handler, this.num, next := bc, srcDst, handler, num, null;
    }
  }

  ghost function EntryOf(o: Order): (e: OrderSteps.Entry)
    ensures e.cmd == o.bc && e.num == o.num
  {
    OrderSteps.Entry(o.bc, o.num)
  }

  /** The nodes of the list stand for the entries of the abstract queue. */
  ghost predicate Matches(q: seq<OrderSteps.Entry>, nodes: seq<Order>) {
    |q| == |nodes| && forall i | 0 <= i < |nodes| :: q[i] == EntryOf(nodes[i])
  }

  lemma InsertMatches(q: seq<OrderSteps.Entry>, nodes: seq<Order>, o: Order, requeue: bool)
    requires Matches(q, nodes)
    ensures var i := Position(q, o.bc);
      Matches(Insert(q, EntryOf(o), requeue),
              if i == |q| then nodes + [o] else if requeue then nodes else nodes[i := o])
  {
  }

  ghost function After(nodes: seq<Order>, i: nat): Order? {
    if i + 1 < |nodes| then nodes[i + 1] else null
  }

  /** The order has the handler it was scheduled with; its own buffer is as long as its command's data
      and, for a write, holds that data. */
  ghost predicate Holds(o: Order, values: seq<seq<byte>>, handlers: seq<bool>)
    reads o
  {
    && o.num < |values| && |o.srcDst| == o.bc.len && (o.bc.write ==> o.srcDst == values[o.num])
    && o.num < |handlers| && o.handler == handlers[o.num]
  }

  class Bus {
    var queue: Order?
    var terminate: bool

    // local to the bus thread
    var order: Order?
    var quit: bool
    var packetsSent: nat
    var packetsLost: nat

    ghost var nodes: seq<Order>         // the list that starts at queue
    ghost var freed: set<Order>
    ghost var history: seq<Step>        // every locked section executed so far
    ghost var values: seq<seq<byte>>    // the data each order was scheduled with
    ghost var handlers: seq<bool>       // whether each order was scheduled with a handler
    ghost var told: seq<(BusCmd, seq<byte>)> // the calls of handlers, with what they were given

    /** The list is acyclic, ends in null, and holds no freed order. */
    ghost predicate Linked()
      reads `queue, `nodes, `freed, nodes
    {
      && queue == (if nodes == [] then null else nodes[0])
      && (forall i, j | 0 <= i < j < |nodes| :: nodes[i] != nodes[j])
      && (forall i | 0 <= i < |nodes| :: nodes[i].next == After(nodes, i))
      && forall o | o in nodes :: o !in freed
    }

    /** Orders that are still to be sent are live and hold the data they were scheduled with. */
    ghost predicate Stored()
      reads `nodes, `order, `freed, `values, `handlers, nodes, if order == null then {} else {order}
    {
      && (forall o | o in nodes :: Holds(o, values, handlers))
      && (order != null ==> order !in nodes && order !in freed && Holds(order, values, handlers))
    }

    /** The fields show a state of the abstract queue; every order that has left it was freed, once. */
    ghost predicate Shows(s: State)
      reads this
    {
      && Matches(s.queue, nodes)
      && s.taken == (if order == null then [] else [EntryOf(order)])
      && |s.created| == |values| == |handlers|
      && s.sent == packetsSent && s.lost == packetsLost
      && s.terminate == terminate && s.quit == quit
      && |freed| == |s.delivered| + |s.superseded| + |s.dropped|
    }

    ghost predicate Valid()
      reads this, nodes, if order == null then {} else {order}
    {
      Linked() && Stored() && Allowed(START, history) && Shows(Run(START, history))
    }

    constructor ()
      ensures Valid() && history == [] && values == [] && handlers == [] && freed == {} && told == []
      ensures order == null && nodes == [] && !quit
    {
      queue, terminate, order, quit := null, false, null, false;
      packetsSent, packetsLost := 0, 0;
      nodes, freed, history, values, handlers, told := [], {}, [], [], [], [];
    }

    /** Frees an order; nothing is freed twice. */
    method OrderDestroy(o: Order)
      requires o !in freed
      modifies `freed
      ensures freed == old(freed) + {o} && |freed| == |old(freed)| + 1
      ensures old(Linked()) && o !in nodes ==> Linked()
    {
      freed := freed + {o};
    }

    /** Walks to the order of a command, or to the end; prev is the order whose next pointer leads
        there, or null for the queue head. */
    method FindSlot(bc: BusCmd, ghost q: seq<OrderSteps.Entry>) returns (prev: Order?, curr: Order?)
      requires Linked() && Matches(q, nodes)
      ensures curr == if Position(q, bc) < |nodes| then nodes[Position(q, bc)] else null
      ensures prev == if Position(q, bc) == 0 then null else nodes[Position(q, bc) - 1]
    {
      prev, curr := null, queue;
      ghost var i := 0;
      while curr != null
        invariant i <= |nodes| && curr == if i < |nodes| then nodes[i] else null
        invariant prev == if i == 0 then null else nodes[i - 1]
        invariant forall j | 0 <= j < i :: q[j].cmd != bc
        decreases |nodes| - i
      {
        if bc == curr.bc {
          break;
        } else {
          prev := curr;
          curr := curr.next;
          i := i + 1;
        }
      }
      assert i < |nodes| ==> q[i].cmd == bc;
      assert i == Position(q, bc);
    }

    /** Puts an order in the place of the one with the same command, or last. A requeued order
        gives way to the one that is there. */
    method OrderQueue(o: Order, requeue: bool, ghost q: seq<OrderSteps.Entry>)
      requires Linked() && Matches(q, nodes) && o !in nodes && o !in freed
      modifies `queue, `nodes, `freed, nodes`next, o`next
      ensures Linked() && Matches(Insert(q, EntryOf(o), requeue), nodes)
      ensures forall n | n in nodes :: n in old(nodes) || n == o
      ensures forall n | n in freed :: n in old(freed) || n in old(nodes) || n == o
      ensures Position(q, o.bc) == |q| ==> freed == old(freed)
      ensures Position(q, o.bc) < |q| ==>
        && freed == old(freed) + {if requeue then o else old(nodes)[Position(q, o.bc)]}
        && |freed| == |old(freed)| + 1
    {
      hide Position;
      hide After;
      hide Linked;
      o.next := null;
      var prev, curr := FindSlot(o.bc, q);
      ghost var i := Position(q, o.bc);
      InsertMatches(q, nodes, o, requeue);
      if curr != null && requeue {
        OrderDestroy(o);
      } else {
        Splice(o, prev, curr, i);
        if curr != null {
          OrderDestroy(curr);
        }
      }
    }

    /** Links o in behind prev, in the place of curr if there is one. */
    method Splice(o: Order, prev: Order?, curr: Order?, ghost i: nat)
      requires Linked() && o !in nodes && o !in freed && i <= |nodes|
      requires curr == if i < |nodes| then nodes[i] else null
      requires prev == if i == 0 then null else nodes[i - 1]
      modifies `queue, `nodes, nodes`next, o`next
      ensures Linked()
      ensures nodes == if i < |old(nodes)| then old(nodes)[i := o] else old(nodes) + [o]
      ensures curr != null ==> curr !in nodes && curr !in freed
    {
      ghost var was := nodes;
      assert curr != null ==> curr.next == After(was, i);
      o.next := if curr != null then curr.next else null;
      if prev == null {
        queue := o;
      } else {
        prev.next := o;
      }
      nodes := if curr != null then nodes[i := o] else nodes + [o];
      forall k | 0 <= k < |nodes|
        ensures nodes[k].next == After(nodes, k)
      {
        if k < |was| && k != i {
          assert old(was[k].next) == After(was, k);
        }
      }
    }

    /** Records a locked section that has just been executed. */
    ghost method Record(step: Step)
      requires Linked() && Stored() && Allowed(START, history)
      requires Enabled(Run(START, history), step) && Shows(Next(Run(START, history), step))
      modifies `history
      ensures Valid() && history == old(history) + [step]
    {
      hide Linked;
      hide Stored;
      RunSnoc(START, history, step);
      history := history + [step];
    }

    /** Schedules an order; write data is copied. */
    method BusSchedule(bc: BusCmd, msg: seq<byte>, handler: bool)
      requires Valid() && (bc.write ==> bc.len <= |msg|)
      modifies this, nodes
      ensures Valid() && history == old(history) + [Schedule(bc)]
      ensures |values| == |old(values)| + 1 && values[..|old(values)|] == old(values)
      ensures bc.write ==> values[|old(values)|] == msg[..bc.len]
      ensures handlers == old(handlers) + [handler]
      ensures order == old(order) && quit == old(quit) && told == old(told)
      ensures forall i | 0 <= i < |nodes| :: nodes[i] in old(nodes) || fresh(nodes[i])
    {
      hide Linked;
      hide Stored;
      hide Shows;
      var srcDst := if bc.write then msg[..bc.len] else seq(bc.len, _ => 0);
      var o := new Order(bc, srcDst, handler, |values|);
      Enqueue(o);
    }

    /** Queues a newly scheduled order. */
    method Enqueue(o: Order)
      requires Valid() && o !in nodes && o !in freed && o != order && o.num == |values| && |o.srcDst| == o.bc.len
      modifies `queue, `nodes, `freed, `values, `handlers, `history, nodes`next, o`next
      ensures Valid() && history == old(history) + [Schedule(o.bc)]
      ensures values == old(values) + [o.srcDst] && handlers == old(handlers) + [o.handler]
      ensures forall n | n in nodes :: n in old(nodes) || n == o
    {
      hide Run;
      hide Allowed;
      hide Linked;
      hide Insert;
      hide Matches;
      hide After;
      hide Position;
      OrderQueue(o, false, Run(START, history).queue);
      values, handlers := values + [o.srcDst], handlers + [o.handler];
      Record(Schedule(o.bc));
    }

    /** Takes the first order off the list, if any. */
    method PopFirst(ghost q: seq<OrderSteps.Entry>) returns (first: Order?)
      requires Linked() && Matches(q, nodes)
      modifies `queue, `nodes
      ensures Linked() && first == old(queue)
      ensures q == [] <==> first == null
      ensures first == null ==> Matches(q, nodes) && nodes == old(nodes)
      ensures first != null ==>
        && q[0] == EntryOf(first) && Matches(q[1..], nodes)
        && old(nodes) == [first] + nodes && first !in nodes && first !in freed
      ensures forall n | n in nodes :: n in old(nodes)
    {
      first := queue;
      if first != null {
        queue := first.next;
        ghost var was := nodes;
        nodes := nodes[1..];
        assert was == [first] + nodes;
        forall k | 0 <= k < |nodes|
          ensures nodes[k].next == After(nodes, k)
        {
          assert was[k + 1].next == After(was, k + 1);
        }
      }
    }

    /** The head of the worker's loop: takes the first order, if any. */
    method WorkerTake()
      requires Valid() && order == null && !quit
      modifies this
      ensures Valid() && history == old(history) + [Take]
      ensures values == old(values) && handlers == old(handlers) && freed == old(freed) && told == old(told)
      ensures order == old(queue) && quit == old(terminate) && terminate == old(terminate)
      ensures order == null ==> nodes == old(nodes)
      ensures order != null ==> old(nodes) == [order] + nodes && order in old(nodes) && Holds(order, values, handlers)
    {
      hide Run;
      hide Allowed;
      hide Linked;
      hide Matches;
      ghost var s := Run(START, history);
      order := PopFirst(s.queue);
      quit := terminate;
      assert Next(s, Take) == s.(
        quit := terminate,
        queue := if order == null then s.queue else s.queue[1..],
        taken := if order == null then [] else [EntryOf(order)]);
      Record(Take);
    }

    /** A read has filled the order's buffer. */
    method StoreReceived(dst: seq<byte>)
      requires Valid() && order != null && !order.bc.write && |dst| == order.bc.len
      modifies order`srcDst
      ensures Valid() && order.srcDst == dst
    {
      hide Run;
      hide Allowed;
      order.srcDst := dst;
    }

    /** The rest of the loop body, after the order was sent. */
    method WorkerDone(success: bool)
      requires Valid() && order != null
      modifies this, nodes`next, order`next
      ensures Valid() && history == old(history) + [if success then Succeed else Fail]
      ensures values == old(values) && handlers == old(handlers)
      ensures order == null && quit == old(quit) && terminate == old(terminate)
      ensures told == old(told) +
        if success && old(order).handler then [(old(order).bc, old(order).srcDst)] else []
      ensures forall i | 0 <= i < |nodes| :: nodes[i] in old(nodes) || nodes[i] == old(order)
    {
      hide Run;
      hide Allowed;
      hide Linked;
      hide Stored;
      hide Matches;
      packetsSent := packetsSent + 1;
      if success {
        Discard();
      } else {
        packetsLost := packetsLost + 1;
        Requeue();
      }
    }

    /** A delivered order is handed to its handler, if it has one, and freed. */
    method Discard()
      requires Linked() && Stored() && Allowed(START, history) && order != null
      requires Shows(Run(START, history).(sent := packetsSent)) && packetsSent == Run(START, history).sent + 1
      modifies `order, `freed, `history, `told
      ensures Valid() && history == old(history) + [Succeed] && order == null
      ensures told == old(told) + if old(order).handler then [(old(order).bc, old(order).srcDst)] else []
    {
      hide Run;
      hide Allowed;
      hide Linked;
      hide Matches;
      hide After;
      hide Insert;
      hide Position;
      hide Holds;
      if order.handler {
        told := told + [(order.bc, order.srcDst)];
      }
      OrderDestroy(order);
      order := null;
      Record(Succeed);
    }

    /** A failed order goes back into the queue. */
    method Requeue()
      requires Linked() && Stored() && Allowed(START, history) && order != null
      requires Shows(Run(START, history).(sent := packetsSent, lost := packetsLost))
      requires packetsSent == Run(START, history).sent + 1 && packetsLost == Run(START, history).lost + 1
      modifies `order, `queue, `nodes, `freed, `history, nodes`next, order`next
      ensures Valid() && history == old(history) + [Fail] && order == null
      ensures forall n | n in nodes :: n in old(nodes) || n == old(order)
    {
      hide Run;
      hide Allowed;
      hide Linked;
      hide Insert;
      hide Matches;
      hide After;
      var o := order;
      OrderQueue(o, true, Run(START, history).queue);
      order := null;
      Record(Fail);
    }

    /** Asks the worker to stop. */
    method RequestTermination()
      requires Valid()
      modifies this
      ensures Valid() && history == old(history) + [OrderSteps.Terminate]
      ensures values == old(values) && handlers == old(handlers) && order == old(order) && told == old(told)
      ensures nodes == old(nodes) && quit == old(quit)
    {
      hide Run;
      hide Allowed;
      hide Linked;
      terminate := true;
      Record(OrderSteps.Terminate);
    }

    /** What is queued and what was freed is all there ever was. */
    lemma QueuedAndFreed()
      requires Valid() && order == null
      ensures |freed| + |nodes| == |values| && Linked()
    {
      OrdersAddUp(history);
      hide Run;
      hide Allowed;
      hide Linked;
      hide Stored;
    }

    /** Once the worker has stopped, frees what is still queued, each order once. With that every order
        that was ever scheduled has been freed. */
    method FreeQueue()
      requires Valid() && quit && order == null
      modifies `freed
      ensures forall o :: o in freed <==> o in old(freed) || o in nodes
      ensures |freed| == |values|
    {
      QueuedAndFreed();
      hide Valid;
      hide Stored;
      hide Shows;
      var current := queue;
      ghost var i := 0;
      while current != null
        invariant i <= |nodes| && current == if i < |nodes| then nodes[i] else null
        invariant forall o :: o in freed <==> o in old(freed) || o in nodes[..i]
        invariant |freed| == |old(freed)| + i
        decreases |nodes| - i
      {
        var prev := current;
        current := current.next;
        assert nodes[..i + 1] == nodes[..i] + [nodes[i]];
        OrderDestroy(prev);
        i := i + 1;
      }
      assert nodes[..i] == nodes;
    }
  }
}
