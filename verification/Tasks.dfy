/** The client's task queue between the map editor and the worker that sends: last in, first out. */
module Tasks {

  datatype Step<T> = Put(task: T) | Get

  /** Tasks are numbered in the order in which they were given. */
  datatype State<T> = State(stack: seq<nat>, given: seq<T>, got: seq<nat>)

  /** One step. Getting a task from an empty queue blocks. */
  function Next<T>(s: State<T>, step: Step<T>): State<T> {
    match step
    case Put(task) => s.(stack := s.stack + [|s.given|], given := s.given + [task])
    case Get =>
      if s.stack == [] then s
      else s.(stack := s.stack[..|s.stack| - 1], got := s.got + [s.stack[|s.stack| - 1]])
  }

  function Run<T>(steps: seq<Step<T>>): (s: State<T>)
    ensures forall i | 0 <= i < |s.stack| :: s.stack[i] < |s.given|
    ensures forall i | 0 <= i < |s.got| :: s.got[i] < |s.given|
  {
    if steps == [] then State([], [], []) else Next(Run(steps[..|steps| - 1]), steps[|steps| - 1])
  }

  /** The tasks in the order in which the worker got them. */
  function Sent<T>(steps: seq<Step<T>>): seq<T> {
    var s := Run(steps);
    seq(|s.got|, i requires 0 <= i < |s.got| => s.given[s.got[i]])
  }

  class TaskQueue<T(==)> {
    var tasks: seq<T>
    ghost var steps: seq<Step<T>>

    ghost predicate Valid()
      reads this
    {
      var s := Run(steps);
      |tasks| == |s.stack| && forall i | 0 <= i < |tasks| :: tasks[i] == s.given[s.stack[i]]
    }

    constructor ()
      ensures Valid() && steps == []
    {
      tasks, steps := [], [];
    }

    method PutTask(task: T)
      requires Valid()
      modifies this
      ensures Valid() && steps == old(steps) + [Put(task)]
    {
      assert (steps + [Put(task)])[..|steps|] == steps;
      tasks := tasks + [task];
      steps := steps + [Put(task)];
    }

    /** The worker gets the newest task; that is what it sends next. */
    method GetTask() returns (task: T)
      requires Valid() && tasks != []
      modifies this
      ensures Valid() && steps == old(steps) + [Get]
      ensures Sent(steps) == Sent(old(steps)) + [task]
    {
      assert (steps + [Get])[..|steps|] == steps;
      task := tasks[|tasks| - 1];
      tasks := tasks[..|tasks| - 1];
      steps := steps + [Get];
    }
  }

  // ---------------------------------------------------------------------------
  // When the order is kept
  // ---------------------------------------------------------------------------

  /** No task was given while another one waited. */
  predicate InTurn<T>(steps: seq<Step<T>>) {
    steps == [] ||
    (var front, last := steps[..|steps| - 1], steps[|steps| - 1];
     InTurn(front) && (last.Put? ==> Run(front).stack == []))
  }

  function Counting(n: nat): (numbers: seq<nat>)
    ensures |numbers| == n && forall i | 0 <= i < n :: numbers[i] == i
  {
    seq(n, i => i)
  }

  lemma {:induction false} InTurnCounts<T>(steps: seq<Step<T>>)
    requires InTurn(steps)
    ensures var s := Run(steps); s.got + s.stack == Counting(|s.given|) && |s.stack| <= 1
  {
    if steps != [] {
      var p, s := Run(steps[..|steps| - 1]), Run(steps);
      InTurnCounts(steps[..|steps| - 1]);
      if steps[|steps| - 1].Put? {
        assert s.got + s.stack == (p.got + p.stack) + [|p.given|];
      } else {
        assert s.got + s.stack == p.got + p.stack;
      }
    }
  }

  /** The newer task b leaves the queue before the older task a. */
  ghost predicate Overtakes<T>(s: State<T>, a: nat, b: nat) {
    && a < b
    && (|| (exists i, j :: 0 <= i < j < |s.stack| && s.stack[i] == a && s.stack[j] == b)
        || (a in s.stack && b in s.got)
        || (exists i, j :: 0 <= i < j < |s.got| && s.got[i] == b && s.got[j] == a))
  }

  lemma OvertakingStays<T>(s: State<T>, step: Step<T>, a: nat, b: nat)
    requires Overtakes(s, a, b)
    ensures Overtakes(Next(s, step), a, b)
  {
    var s' := Next(s, step);
    if i, j :| 0 <= i < j < |s.stack| && s.stack[i] == a && s.stack[j] == b {
      if j < |s'.stack| {
        assert s'.stack[i] == a && s'.stack[j] == b;
      } else {
        assert s'.stack[i] == a && s'.got[|s.got|] == b;
      }
    } else if a in s.stack && b in s.got {
      var i :| 0 <= i < |s.stack| && s.stack[i] == a;
      var k :| 0 <= k < |s.got| && s.got[k] == b;
      assert s'.got[k] == b;
      if i < |s'.stack| {
        assert s'.stack[i] == a;
      } else {
        assert s'.got[|s.got|] == a;
      }
    } else {
      var i, j :| 0 <= i < j < |s.got| && s.got[i] == b && s.got[j] == a;
      assert s'.got[i] == b && s'.got[j] == a;
    }
  }

  lemma {:induction false} OutOfTurnOvertakes<T>(steps: seq<Step<T>>) returns (a: nat, b: nat)
    requires !InTurn(steps)
    ensures Overtakes(Run(steps), a, b)
  {
    var front, last := steps[..|steps| - 1], steps[|steps| - 1];
    var s := Run(front);
    if !InTurn(front) {
      a, b := OutOfTurnOvertakes(front);
      OvertakingStays(s, last, a, b);
    } else {
      a, b := s.stack[0], |s.given|;
      var s' := Run(steps);
      assert s'.stack[0] == a && s'.stack[|s.stack|] == b;
    }
  }

  /** Once all tasks are taken, they were taken in the order in which they were given if and only if
      each was given to an empty queue. */
  lemma OrderIsKept<T>(steps: seq<Step<T>>)
    requires Run(steps).stack == []
    ensures Run(steps).got == Counting(|Run(steps).given|) <==> InTurn(steps)
    ensures InTurn(steps) ==> Sent(steps) == Run(steps).given
  {
    if InTurn(steps) {
      InTurnCounts(steps);
    } else {
      var a, b := OutOfTurnOvertakes(steps);
    }
  }

  lemma RunSnoc<T>(steps: seq<Step<T>>, step: Step<T>)
    ensures Run(steps + [step]) == Next(Run(steps), step)
  {
    assert (steps + [step])[..|steps|] == steps;
  }

  /** Two tasks given while the worker is busy are taken the other way round. */
  lemma NewestFirst<T>(x: T, y: T)
    ensures Sent([Put(x), Put(y), Get, Get]) == [y, x]
  {
    TwoTasks(x, y);
    hide Run;
  }

  lemma AfterPut<T>(steps: seq<Step<T>>, s: State<T>, task: T, s': State<T>)
    requires Run(steps) == s
    requires s'.stack == s.stack + [|s.given|] && s'.given == s.given + [task] && s'.got == s.got
    ensures Run(steps + [Put(task)]) == s'
  {
    RunSnoc(steps, Put(task));
  }

  lemma AfterGet<T>(steps: seq<Step<T>>, s: State<T>, top: nat, s': State<T>)
    requires Run(steps) == s
    requires s.stack == s'.stack + [top] && s'.given == s.given && s'.got == s.got + [top]
    ensures Run(steps + [Get]) == s'
  {
    RunSnoc(steps, Get);
    assert s.stack[..|s.stack| - 1] == s'.stack;
  }

  lemma TwoTasks<T>(x: T, y: T)
    ensures Run([Put(x), Put(y), Get, Get]) == State([], [x, y], [1, 0])
  {
    EmptyRun<T>();
    Listed(Put(x), Put(y));
    hide *;
    AfterPut([], State([], [], []), x, State([0], [x], []));
    AfterPut([Put(x)], State([0], [x], []), y, State([0, 1], [x, y], []));
    AfterGet([Put(x), Put(y)], State([0, 1], [x, y], []), 1, State([0], [x, y], [1]));
    AfterGet([Put(x), Put(y), Get], State([0], [x, y], [1]), 0, State([], [x, y], [1, 0]));
  }

  lemma Listed<T>(p: Step<T>, q: Step<T>)
    ensures [] + [p] == [p] && [p] + [q] == [p, q]
    ensures [p, q] + [Get] == [p, q, Get] && [p, q, Get] + [Get] == [p, q, Get, Get]
  {
  }

  lemma EmptyRun<T>()
    ensures Run<T>([]) == State([], [], [])
  {
  }
}
