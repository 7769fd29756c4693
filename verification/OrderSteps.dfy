/** The coalescing order queue as a system of atomic steps, over every interleaving of the
    threads that schedule orders and the one worker that delivers them. */
module OrderSteps {
  import opened Protocol

  /** An order, numbered when it is scheduled (under the lock). */
  datatype Entry = Entry(cmd: BusCmd, num: nat)

  datatype State = State(
    created: seq<Entry>,
    queue: seq<Entry>,
    taken: seq<Entry>,        // the order the worker holds, if any
    delivered: seq<Entry>,
    superseded: seq<Entry>,   // replaced in the queue by a newer order
    dropped: seq<Entry>,      // failed, and a newer order was waiting
    tried: seq<Entry>,        // every attempt at an order, successful or not
    sent: nat,
    lost: nat,
    terminate: bool,
    quit: bool)

  const START := State([], [], [], [], [], [], [], 0, 0, false, false)

  datatype Step = Schedule(cmd: BusCmd) | Take | Succeed | Fail | Terminate

  /** The position of a command in the queue, or its length. */
  function Position(queue: seq<Entry>, cmd: BusCmd): (i: nat)
    ensures i <= |queue|
    ensures i < |queue| ==> queue[i].cmd == cmd
    ensures forall j | 0 <= j < i :: queue[j].cmd != cmd
  {
    if queue == [] then 0
    else if queue[0].cmd == cmd then 0
    else 1 + Position(queue[1..], cmd)
  }

  /** What queueing an order does to the queue: it replaces the waiting order of its command in
      place, or goes last; a requeued order gives way to the one that waits. */
  function Insert(queue: seq<Entry>, e: Entry, requeue: bool): seq<Entry> {
    var i := Position(queue, e.cmd);
    if i == |queue| then queue + [e]
    else if requeue then queue
    else queue[i := e]
  }

  predicate Enabled(s: State, step: Step) {
    match step
    case Schedule(_) => true
    case Terminate => true
    case Take => s.taken == [] && !s.quit
    case Succeed => s.taken != []
    case Fail => s.taken != []
  }

  function Next(s: State, step: Step): State
    requires Enabled(s, step)
  {
    match step
    case Schedule(cmd) =>
      var e := Entry(cmd, |s.created|);
      var i := Position(s.queue, cmd);
      s.(created := s.created + [e],
         queue := Insert(s.queue, e, false),
         superseded := s.superseded + if i < |s.queue| then [s.queue[i]] else [])
    case Take =>
      var s' := s.(quit := s.terminate);
      if s.queue == [] then s' else s'.(queue := s.queue[1..], taken := [s.queue[0]])
    case Succeed =>
      s.(taken := [], delivered := s.delivered + s.taken, tried := s.tried + s.taken, sent := s.sent + 1)
    case Fail =>
      var e := s.taken[0];
      s.(taken := [],
         queue := Insert(s.queue, e, true),
         dropped := s.dropped + if Position(s.queue, e.cmd) < |s.queue| then [e] else [],
         tried := s.tried + s.taken,
         sent := s.sent + 1,
         lost := s.lost + 1)
    case Terminate =>
      s.(terminate := true)
  }

  predicate Allowed(s: State, steps: seq<Step>)
    decreases |steps|
  {
    steps == [] || (Enabled(s, steps[0]) && Allowed(Next(s, steps[0]), steps[1..]))
  }

  function Run(s: State, steps: seq<Step>): State
    requires Allowed(s, steps)
    decreases |steps|
  {
    if steps == [] then s else Run(Next(s, steps[0]), steps[1..])
  }

  // ---------------------------------------------------------------------------
  // The invariant
  // ---------------------------------------------------------------------------

  ghost predicate DistinctCmds(queue: seq<Entry>) {
    forall i, j | 0 <= i < j < |queue| :: queue[i].cmd != queue[j].cmd
  }

  /** Orders of one command appear in both sequences, and from the first to the second, by number. */
  ghost predicate Before(a: seq<Entry>, b: seq<Entry>) {
    forall i, j | 0 <= i < |a| && 0 <= j < |b| && a[i].cmd == b[j].cmd :: a[i].num < b[j].num
  }

  ghost predicate Increasing(a: seq<Entry>) {
    forall i, j | 0 <= i < j < |a| && a[i].cmd == a[j].cmd :: a[i].num < a[j].num
  }

  ghost predicate Numbered(created: seq<Entry>) {
    forall i | 0 <= i < |created| :: created[i].num == i
  }

  /** Some order of the same command was scheduled later. */
  ghost predicate Outdated(created: seq<Entry>, e: Entry) {
    exists k :: e.num < k < |created| && created[k].cmd == e.cmd
  }

  ghost predicate IsNewest(created: seq<Entry>, e: Entry) {
    e in created && !Outdated(created, e)
  }

  /** Every order ever created, by where it ended up. */
  ghost function Everywhere(s: State): multiset<Entry> {
    multiset(s.queue) + multiset(s.taken) + multiset(s.delivered) + multiset(s.superseded) + multiset(s.dropped)
  }

  ghost predicate Ordering(s: State) {
    && |s.taken| <= 1
    && DistinctCmds(s.queue)
    && Increasing(s.delivered)
    && Before(s.delivered, s.taken) && Before(s.delivered, s.queue) && Before(s.taken, s.queue)
  }

  ghost predicate Accounting(s: State) {
    && Numbered(s.created)
    && multiset(s.created) == Everywhere(s)
    && s.sent == |s.tried| == |s.delivered| + s.lost
    && Stale(s.created, s.superseded) && Stale(s.created, s.dropped)
  }

  ghost predicate Stale(created: seq<Entry>, orders: seq<Entry>) {
    forall i | 0 <= i < |orders| :: Outdated(created, orders[i])
  }

  ghost predicate Inv(s: State) {
    Ordering(s) && Accounting(s)
  }

  lemma InCreated(s: State, e: Entry)
    requires Accounting(s)
    ensures e in s.created <==>
      e in s.queue || e in s.taken || e in s.delivered || e in s.superseded || e in s.dropped
    ensures e in s.created ==> e.num < |s.created| && s.created[e.num] == e
  {
    assert e in multiset(s.created) <==> e in Everywhere(s);
  }

  lemma NewNumberIsLargest(s: State)
    requires Accounting(s)
    ensures forall e | e in s.queue || e in s.taken || e in s.delivered :: e.num < |s.created|
  {
    forall e | e in s.queue || e in s.taken || e in s.delivered
      ensures e.num < |s.created|
    {
      InCreated(s, e);
    }
  }

  lemma ScheduleKeepsOrdering(s: State, cmd: BusCmd)
    requires Ordering(s)
    requires forall e | e in s.taken || e in s.delivered :: e.num < |s.created|
    ensures Ordering(Next(s, Schedule(cmd)))
  {
    var e, q := Entry(cmd, |s.created|), Next(s, Schedule(cmd)).queue;
    assert forall j | 0 <= j < |q| :: q[j] == e || (j < |s.queue| && q[j] == s.queue[j]);
    BeforeNewest(s.delivered, s.queue, q, e);
    BeforeNewest(s.taken, s.queue, q, e);
  }

  lemma BeforeNewest(a: seq<Entry>, q: seq<Entry>, q': seq<Entry>, e: Entry)
    requires Before(a, q) && forall x | x in a :: x.num < e.num
    requires forall j | 0 <= j < |q'| :: q'[j] == e || (j < |q| && q'[j] == q[j])
    ensures Before(a, q')
  {
    forall i, j | 0 <= i < |a| && 0 <= j < |q'| && a[i].cmd == q'[j].cmd
      ensures a[i].num < q'[j].num
    {
      assert a[i] in a;
      if q'[j] != e {
        assert q'[j] == q[j];
      }
    }
  }

  lemma TakeKeepsOrdering(s: State)
    requires Ordering(s) && s.taken == [] && s.queue != []
    ensures Before(s.delivered, [s.queue[0]]) && Before(s.delivered, s.queue[1..])
    ensures Before([s.queue[0]], s.queue[1..]) && DistinctCmds(s.queue[1..])
  {
  }

  lemma SucceedKeepsOrdering(s: State)
    requires Ordering(s) && s.taken != []
    ensures Increasing(s.delivered + s.taken) && Before(s.delivered + s.taken, s.queue)
  {
  }

  lemma RequeueKeepsOrdering(s: State)
    requires Ordering(s) && s.taken != [] && Position(s.queue, s.taken[0].cmd) == |s.queue|
    ensures DistinctCmds(s.queue + s.taken) && Before(s.delivered, s.queue + s.taken)
  {
  }

  lemma StepKeepsOrdering(s: State, step: Step)
    requires Inv(s) && Enabled(s, step)
    ensures Ordering(Next(s, step))
  {
    NewNumberIsLargest(s);
    hide Accounting;
    hide Before;
    hide DistinctCmds;
    hide Increasing;
    NothingBefore(s.queue);
    NothingAfter(s.delivered);
    NothingAfter(s.delivered + s.taken);
    match step
    case Schedule(cmd) => ScheduleKeepsOrdering(s, cmd);
    case Take => if s.queue != [] { TakeKeepsOrdering(s); }
    case Succeed => SucceedKeepsOrdering(s);
    case Fail =>
      if Position(s.queue, s.taken[0].cmd) == |s.queue| {
        RequeueKeepsOrdering(s);
        NothingBefore(s.queue + s.taken);
      }
    case Terminate =>
  }

  lemma NothingBefore(b: seq<Entry>)
    ensures Before([], b)
  {
  }

  lemma NothingAfter(a: seq<Entry>)
    ensures Before(a, [])
  {
  }

  lemma StaleStays(created: seq<Entry>, e: Entry, orders: seq<Entry>)
    requires Stale(created, orders)
    ensures Stale(created + [e], orders)
  {
    forall i | 0 <= i < |orders|
      ensures Outdated(created + [e], orders[i])
    {
      var k :| orders[i].num < k < |created| && created[k].cmd == orders[i].cmd;
      assert (created + [e])[k].cmd == orders[i].cmd;
    }
  }

  lemma InsertAddsOne(q: seq<Entry>, e: Entry, i: nat)
    requires i < |q|
    ensures multiset(q[i := e]) + multiset{q[i]} == multiset(q) + multiset{e}
  {
    assert q == q[..i] + [q[i]] + q[i + 1..];
    assert q[i := e] == q[..i] + [e] + q[i + 1..];
  }

  lemma ScheduleKeepsPlaces(s: State, cmd: BusCmd)
    ensures Everywhere(Next(s, Schedule(cmd))) == Everywhere(s) + multiset{Entry(cmd, |s.created|)}
  {
    var i := Position(s.queue, cmd);
    if i < |s.queue| {
      InsertAddsOne(s.queue, Entry(cmd, |s.created|), i);
    }
  }

  lemma SupersededStaysStale(s: State, cmd: BusCmd)
    requires Accounting(s)
    ensures Stale(Next(s, Schedule(cmd)).created, Next(s, Schedule(cmd)).superseded)
    ensures Stale(Next(s, Schedule(cmd)).created, Next(s, Schedule(cmd)).dropped)
  {
    NewNumberIsLargest(s);
    hide Stale;
    hide Everywhere;
    hide Insert;
    var e, i := Entry(cmd, |s.created|), Position(s.queue, cmd);
    StaleStays(s.created, e, s.superseded);
    StaleStays(s.created, e, s.dropped);
    if i < |s.queue| {
      ReplacedIsStale(s.created, s.superseded, s.queue[i], e);
    } else {
      assert s.superseded + [] == s.superseded;
    }
  }

  lemma ScheduleKeepsAccounting(s: State, cmd: BusCmd)
    requires Accounting(s)
    ensures Accounting(Next(s, Schedule(cmd)))
  {
    ScheduleKeepsPlaces(s, cmd);
    SupersededStaysStale(s, cmd);
    hide Everywhere;
    hide Stale;
    hide Insert;
    hide Position;
  }

  lemma ReplacedIsStale(created: seq<Entry>, orders: seq<Entry>, x: Entry, e: Entry)
    requires Stale(created + [e], orders) && x.num < |created| && e.cmd == x.cmd
    ensures Stale(created + [e], orders + [x])
  {
    assert (created + [e])[|created|].cmd == x.cmd;
  }

  lemma TakeKeepsPlaces(s: State)
    requires Enabled(s, Take)
    ensures Everywhere(Next(s, Take)) == Everywhere(s)
  {
    if s.queue != [] {
      assert s.queue == [s.queue[0]] + s.queue[1..];
    }
  }

  lemma SucceedKeepsPlaces(s: State)
    requires |s.taken| == 1
    ensures Everywhere(Next(s, Succeed)) == Everywhere(s)
  {
  }

  lemma FailKeepsPlaces(s: State)
    requires |s.taken| == 1
    ensures Everywhere(Next(s, Fail)) == Everywhere(s)
  {
    var e := s.taken[0];
    assert multiset(s.taken) == multiset{e} by { assert s.taken == [e]; }
    var s' := Next(s, Fail);
    if Position(s.queue, e.cmd) == |s.queue| {
      assert s'.queue == s.queue + [e] && s'.dropped == s.dropped;
    } else {
      assert s'.queue == s.queue && s'.dropped == s.dropped + [e];
    }
    hide Position;
    hide Insert;
    hide Next;
  }

  lemma TakenIsOutdated(s: State)
    requires Inv(s) && s.taken != [] && Position(s.queue, s.taken[0].cmd) < |s.queue|
    ensures Outdated(s.created, s.taken[0])
  {
    var e := s.queue[Position(s.queue, s.taken[0].cmd)];
    assert e in s.queue;
    InCreated(s, e);
    assert s.created[e.num].cmd == s.taken[0].cmd;
  }

  lemma StepKeepsAccounting(s: State, step: Step)
    requires Inv(s) && Enabled(s, step)
    ensures Accounting(Next(s, step))
  {
    hide Outdated;
    hide Everywhere;
    match step
    case Schedule(cmd) => ScheduleKeepsAccounting(s, cmd);
    case Take => TakeKeepsPlaces(s);
    case Succeed => SucceedKeepsPlaces(s);
    case Fail =>
      FailKeepsPlaces(s);
      if Position(s.queue, s.taken[0].cmd) < |s.queue| {
        TakenIsOutdated(s);
      }
    case Terminate =>
      assert Everywhere(Next(s, Terminate)) == Everywhere(s) by { TerminateKeepsPlaces(s); }
  }

  lemma TerminateKeepsPlaces(s: State)
    ensures Everywhere(Next(s, Terminate)) == Everywhere(s)
  {
  }

  lemma {:induction false} RunKeepsInv(s: State, steps: seq<Step>)
    requires Inv(s) && Allowed(s, steps)
    ensures Inv(Run(s, steps))
    decreases |steps|
  {
    hide Inv;
    if steps != [] {
      assert Inv(Next(s, steps[0])) by {
        StepInv(s, steps[0]);
      }
      RunKeepsInv(Next(s, steps[0]), steps[1..]);
    }
  }

  lemma StepInv(s: State, step: Step)
    requires Inv(s) && Enabled(s, step)
    ensures Inv(Next(s, step))
  {
    StepKeepsOrdering(s, step);
    StepKeepsAccounting(s, step);
  }

  // ---------------------------------------------------------------------------
  // What every run guarantees
  // ---------------------------------------------------------------------------

  /** The orders of a command are delivered in the order they were scheduled: never an old value
      after a newer one. */
  lemma DeliveredInOrder(steps: seq<Step>, i: nat, j: nat)
    requires Allowed(START, steps)
    requires i < j < |Run(START, steps).delivered|
    requires Run(START, steps).delivered[i].cmd == Run(START, steps).delivered[j].cmd
    ensures Run(START, steps).delivered[i].num < Run(START, steps).delivered[j].num
  {
    StartInv();
    RunKeepsInv(START, steps);
  }

  lemma StartInv()
    ensures Inv(START)
  {
  }

  /** The newest order of a command is never lost: it was delivered, is being sent, or is queued. */
  lemma NewestSurvives(steps: seq<Step>, e: Entry)
    requires Allowed(START, steps) && IsNewest(Run(START, steps).created, e)
    ensures var s := Run(START, steps); e in s.delivered || e in s.taken || e in s.queue
  {
    StartInv();
    RunKeepsInv(START, steps);
    InCreated(Run(START, steps), e);
  }

  /** Every order created is in exactly one place: queued, being sent, delivered, superseded or dropped. */
  lemma OrdersAreConserved(steps: seq<Step>, e: Entry)
    requires Allowed(START, steps) && e in Run(START, steps).created
    ensures Everywhere(Run(START, steps))[e] == 1
    ensures var s := Run(START, steps);
      |s.created| == |s.queue| + |s.taken| + |s.delivered| + |s.superseded| + |s.dropped|
  {
    StartInv();
    RunKeepsInv(START, steps);
    var s := Run(START, steps);
    InCreated(s, e);
    NumberedOnce(s.created, e);
    assert |multiset(s.created)| == |Everywhere(s)|;
  }

  /** So once nothing is being sent, what is no longer queued has left the queue for good. */
  lemma OrdersAddUp(steps: seq<Step>)
    requires Allowed(START, steps)
    ensures var s := Run(START, steps);
      |s.created| == |s.queue| + |s.taken| + |s.delivered| + |s.superseded| + |s.dropped|
  {
    StartInv();
    RunKeepsInv(START, steps);
    var s := Run(START, steps);
    assert |multiset(s.created)| == |Everywhere(s)|;
  }

  lemma {:induction false} NumberedOnce(created: seq<Entry>, e: Entry)
    requires Numbered(created)
    ensures multiset(created)[e] == if e in created then 1 else 0
  {
    if created != [] {
      var front, last := created[..|created| - 1], created[|created| - 1];
      assert created == front + [last];
      NumberedOnce(front, e);
    }
  }

  // ---------------------------------------------------------------------------
  // Bounded waiting
  // ---------------------------------------------------------------------------

  function Takes(steps: seq<Step>): nat {
    if steps == [] then 0 else (if steps[0].Take? then 1 else 0) + Takes(steps[1..])
  }

  lemma StepMovesUp(s: State, step: Step, i: nat)
    requires Enabled(s, step) && i < |s.queue|
    requires step.Take? ==> i > 0
    ensures var k := if step.Take? then i - 1 else i;
      k < |Next(s, step).queue| && Next(s, step).queue[k].cmd == s.queue[i].cmd
  {
  }

  /** Whatever happens meanwhile, a command at index i moves up with every take and with nothing else... */
  lemma {:induction false} WaitingMovesUp(s: State, steps: seq<Step>, i: nat)
    requires Allowed(s, steps) && i < |s.queue| && Takes(steps) <= i
    ensures var q := Run(s, steps).queue;
      i - Takes(steps) < |q| && q[i - Takes(steps)].cmd == s.queue[i].cmd
    decreases |steps|
  {
    if steps != [] {
      StepMovesUp(s, steps[0], i);
      var k := if steps[0].Take? then i - 1 else i;
      WaitingMovesUp(Next(s, steps[0]), steps[1..], k);
    }
  }

  /** ...so it is attempted on exactly the (i+1)-th take. */
  lemma WaitingIsBounded(s: State, steps: seq<Step>, i: nat)
    requires Allowed(s, steps) && i < |s.queue| && Takes(steps) == i
    requires Enabled(Run(s, steps), Take)
    ensures var after := Next(Run(s, steps), Take);
      after.taken != [] && after.taken[0].cmd == s.queue[i].cmd
  {
    WaitingMovesUp(s, steps, i);
  }

  /** The order itself moves up, as long as no newer one of its command is scheduled... */
  lemma {:induction false} OrderMovesUp(s: State, steps: seq<Step>, i: nat)
    requires Allowed(s, steps) && i < |s.queue| && Takes(steps) <= i
    requires Schedule(s.queue[i].cmd) !in steps
    ensures var q := Run(s, steps).queue;
      i - Takes(steps) < |q| && q[i - Takes(steps)] == s.queue[i]
    decreases |steps|
  {
    if steps != [] {
      assert steps[0] in steps && forall x | x in steps[1..] :: x in steps;
      OrderStaysInPlace(s, steps[0], i);
      OrderMovesUp(Next(s, steps[0]), steps[1..], if steps[0].Take? then i - 1 else i);
    }
  }

  lemma OrderStaysInPlace(s: State, step: Step, i: nat)
    requires Enabled(s, step) && i < |s.queue| && step != Schedule(s.queue[i].cmd)
    requires step.Take? ==> i > 0
    ensures var k := if step.Take? then i - 1 else i;
      k < |Next(s, step).queue| && Next(s, step).queue[k] == s.queue[i]
  {
  }

  /** ...so it is the one that the (i+1)-th take takes. */
  lemma OrderIsTaken(s: State, steps: seq<Step>, i: nat)
    requires Allowed(s, steps) && i < |s.queue| && Takes(steps) == i
    requires Schedule(s.queue[i].cmd) !in steps && Enabled(Run(s, steps), Take)
    ensures Next(Run(s, steps), Take).taken == [s.queue[i]]
  {
    OrderMovesUp(s, steps, i);
  }

  lemma {:induction false} RunConcat(s: State, a: seq<Step>, b: seq<Step>)
    requires Allowed(s, a + b)
    ensures Allowed(s, a) && Allowed(Run(s, a), b) && Run(s, a + b) == Run(Run(s, a), b)
    decreases |a|
  {
    if a == [] {
      assert a + b == b;
    } else {
      assert (a + b)[1..] == a[1..] + b;
      RunConcat(Next(s, a[0]), a[1..], b);
    }
  }

  ghost predicate SchedulesTable(steps: seq<Step>) {
    forall step | step in steps && step.Schedule? :: InTable(step.cmd)
  }

  // The 13 valid entries of the two tables.
  const TABLE_CMDS: set<BusCmd> := {
    Protocol.Entry(Sens, 1), Protocol.Entry(Sens, 2), Protocol.Entry(Sens, 3),
    Protocol.Entry(Ctrl, 1), Protocol.Entry(Ctrl, 2),
    Protocol.Entry(Ctrl, 8), Protocol.Entry(Ctrl, 9), Protocol.Entry(Ctrl, 10), Protocol.Entry(Ctrl, 11),
    Protocol.Entry(Ctrl, 12), Protocol.Entry(Ctrl, 13), Protocol.Entry(Ctrl, 14), Protocol.Entry(Ctrl, 15)
  }

  lemma TableHas13(bc: BusCmd)
    requires InTable(bc)
    ensures bc in TABLE_CMDS && |TABLE_CMDS| <= 13
  {
    if bc.slave.Ctrl? {
      assert bc.cmd in {1, 2, 8, 9, 10, 11, 12, 13, 14, 15};
    }
    SetOf13(Protocol.Entry(Sens, 1), Protocol.Entry(Sens, 2), Protocol.Entry(Sens, 3),
      Protocol.Entry(Ctrl, 1), Protocol.Entry(Ctrl, 2),
      Protocol.Entry(Ctrl, 8), Protocol.Entry(Ctrl, 9), Protocol.Entry(Ctrl, 10), Protocol.Entry(Ctrl, 11),
      Protocol.Entry(Ctrl, 12), Protocol.Entry(Ctrl, 13), Protocol.Entry(Ctrl, 14), Protocol.Entry(Ctrl, 15));
  }

  lemma SetOf13<T>(a: T, b: T, c: T, d: T, e: T, f: T, g: T, h: T, i: T, j: T, k: T, l: T, m: T)
    ensures |{a, b, c, d, e, f, g, h, i, j, k, l, m}| <= 13
  {
  }

  lemma {:induction false} QueuedFromTable(s: State, steps: seq<Step>)
    requires Allowed(s, steps) && SchedulesTable(steps)
    requires forall e | e in s.queue || e in s.taken :: InTable(e.cmd)
    ensures forall e | e in Run(s, steps).queue || e in Run(s, steps).taken :: InTable(e.cmd)
    decreases |steps|
  {
    if steps != [] {
      assert steps[0] in steps;
      QueuedFromTable(Next(s, steps[0]), steps[1..]);
    }
  }

  ghost function CmdsOf(queue: seq<Entry>): set<BusCmd> {
    set e | e in queue :: e.cmd
  }

  lemma {:induction false} DistinctCount(queue: seq<Entry>)
    requires DistinctCmds(queue)
    ensures |CmdsOf(queue)| == |queue|
  {
    if queue != [] {
      var front, last := queue[..|queue| - 1], queue[|queue| - 1];
      DistinctCount(front);
      assert queue == front + [last];
      assert CmdsOf(queue) == CmdsOf(front) + {last.cmd};
    }
  }

  /** No command starves another: as long as only table commands are scheduled, at most 13 orders
      wait, so the wait of each is at most 13 takes. */
  lemma QueueIsShort(steps: seq<Step>)
    requires Allowed(START, steps) && SchedulesTable(steps)
    ensures |Run(START, steps).queue| <= 13
  {
    StartInv();
    RunKeepsInv(START, steps);
    QueuedFromTable(START, steps);
    var queue := Run(START, steps).queue;
    DistinctCount(queue);
    if queue != [] {
      TableHas13(queue[0].cmd);
      forall e | e in queue
        ensures e.cmd in TABLE_CMDS
      {
        TableHas13(e.cmd);
      }
      SubsetCount(CmdsOf(queue), TABLE_CMDS);
    }
  }

  lemma {:induction false} SubsetCount<T>(a: set<T>, b: set<T>)
    requires a <= b
    ensures |a| <= |b|
  {
    if a != {} {
      var x :| x in a;
      SubsetCount(a - {x}, b - {x});
    }
  }

  /** The worker is asked to stop exactly by Terminate... */
  lemma {:induction false} StopsWhenAsked(s: State, steps: seq<Step>)
    requires Allowed(s, steps)
    ensures Run(s, steps).terminate <==> s.terminate || Terminate in steps
    decreases |steps|
  {
    if steps != [] {
      StopsWhenAsked(Next(s, steps[0]), steps[1..]);
      assert steps == [steps[0]] + steps[1..];
    }
  }

  /** ...and quits with the first take after that. */
  lemma QuitsAtNextTake(steps: seq<Step>)
    requires Allowed(START, steps) && Enabled(Run(START, steps), Take)
    ensures Allowed(START, steps + [Take])
    ensures Run(START, steps + [Take]).quit <==> Terminate in steps
  {
    StopsWhenAsked(START, steps);
    RunSnoc(START, steps, Take);
  }

  /** Runs can be taken apart at their last step. */
  lemma {:induction false} RunSnoc(s: State, steps: seq<Step>, last: Step)
    requires Allowed(s, steps) && Enabled(Run(s, steps), last)
    ensures Allowed(s, steps + [last]) && Run(s, steps + [last]) == Next(Run(s, steps), last)
    decreases |steps|
  {
    if steps == [] {
      assert [last][1..] == [];
      assert [] + [last] == [last];
    } else {
      assert (steps + [last])[1..] == steps[1..] + [last];
      RunSnoc(Next(s, steps[0]), steps[1..], last);
    }
  }
}
