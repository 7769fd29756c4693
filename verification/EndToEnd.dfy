/** From a path on the map to the command queue in the car and back to the map. */
module EndToEnd {
  import opened Commands
  import Course
  import Drive
  import Executor
  import Mission
  import MissionText
  import Server
  import Tasks
  import Text
  import Tokeniser
  import Tracker

  /** Plans the route to a node and compiles its mission. If there is a route, the path is one, and
      cheaper than no other; the mission compiles unless the last node that is kept, behind the first,
      is an inner one: so it does for every stop line, parking and entry. Without a route the mission
      is empty. */
  method PlanMission(course: seq<Course.Node>, src: Course.Node, dst: Course.Node?, ghost other: seq<Course.Edge>)
    returns (path: Mission.Path, result: Mission.MissionResult, ghost walk: seq<Course.Edge>)
    requires Course.Distinct(course) && Course.NonNegative(Course.GraphOf(course))
    ensures path == Course.Stops(src, walk) && path[0] == src
    ensures Course.Leads(Course.GraphOf(course), src, walk, dst) || result == Mission.Compiled([])
    ensures Course.Leads(Course.GraphOf(course), src, other, dst) ==>
      Course.Leads(Course.GraphOf(course), src, walk, dst) && Course.Cost(walk) <= Course.Cost(other)
    ensures var kept := Mission.Cleared(path);
      && (result.Compiled? <==> |kept| <= 1 || !kept[|kept| - 1].kind.Inner?)
      && (result.Compiled? ==> Mission.IsMission(kept, result.commands))
      && (path[|path| - 1].kind in {Course.Stopline, Course.Parking, Course.Outer} ==> result.Compiled?)
  {
    hide *;
    ghost var taken, known;
    path, walk, taken, known := Course.ClosestPath(course, src, dst);
    assert Course.Leads(Course.GraphOf(course), src, walk, dst) || path == [src];
    StartsAtSource(src, walk);
    var nodes := Mission.ClearEmpty(path);
    result := Mission.CreateMission(nodes);
    PlannedMission(src, path, result);
  }

  lemma PlannedMission(src: Course.Node, path: Mission.Path, result: Mission.MissionResult)
    requires path != []
    requires result.Compiled? <==> Mission.Compilable(Mission.Cleared(path))
    requires result.Compiled? ==> Mission.IsMission(Mission.Cleared(path), result.commands)
    ensures path == [src] ==> result == Mission.Compiled([])
    ensures var kept := Mission.Cleared(path);
      && (result.Compiled? <==> |kept| <= 1 || !kept[|kept| - 1].kind.Inner?)
      && (path[|path| - 1].kind in {Course.Stopline, Course.Parking, Course.Outer} ==> result.Compiled?)
  {
    NothingBehindFirst(src);
    if path == [src] {
      assert result.Compiled? && result.commands == [];
    }
    hide Mission.Cleared;
  }

  lemma NothingBehindFirst(n: Course.Node)
    ensures |Mission.Cleared([n])| <= 1
  {
    assert [n][..0] == [];
  }

  lemma {:induction false} StartsAtSource(src: Course.Node, walk: seq<Course.Edge>)
    ensures Course.Stops(src, walk) != [] && Course.Stops(src, walk)[0] == src
  {
    if walk != [] {
      StartsAtSource(src, walk[..|walk| - 1]);
    }
  }

  lemma NamesAreClean(commands: seq<Command>)
    ensures Tokeniser.Clean(Names(commands), Server.ARG_DELIM)
  {
    forall i | 0 <= i < |commands|
      ensures Names(commands)[i] != "" && Server.ARG_DELIM !in Names(commands)[i]
    {
      MissionText.NameFacts(commands[i]);
    }
  }

  /** A mission sent with the append command, whatever that is called, is parsed to exactly its names and
      queued as exactly its commands behind those that are left, whatever the car is doing. */
  lemma MissionArrives(table: seq<Server.SrvCmd>, append: string, x: Executor.State, mission: seq<Command>)
    requires append != "" && Server.CMD_DELIM !in append
    requires Server.Find(table, append) < |table| && table[Server.Find(table, append)].minArgs == 0
    ensures Server.Parse(table, Server.CreateMsg(append, Names(mission))) ==
      Server.Call(Server.Find(table, append), [append] + Names(mission))
    ensures MissionText.Remaining(Executor.SetMission(x, ([append] + Names(mission))[1..], true)) ==
      MissionText.Remaining(x) + mission
  {
    hide Server.Parse;
    hide Server.CreateMsg;
    hide Server.Find;
    hide Executor.Queue;
    hide Executor.AllKnown;
    hide Tokeniser.Clean;
    hide Names;
    NamesAreClean(mission);
    Server.RequestRoundTrip(table, append, Names(mission));
    Executor.NamesQueue(mission);
    assert ([append] + Names(mission))[1..] == Names(mission);
  }

  /** What the server sends back for the remaining mission: its text, if any. */
  function RemainingReply(x: Executor.State): string {
    var left := MissionText.Remaining(x);
    Server.Framed(true, if left == [] then "" else Text.Join(Names(left), ' '))
  }

  /** The number of commands left, as the client counts them in the reply. */
  function CountLeft(reply: string): nat {
    match Server.ReadReply(reply)
    case None => 0
    case Some((_, text)) => if text == "" then 0 else |Text.Split(text, ' ')|
  }

  lemma {:induction false} JoinedNotEmpty(commands: seq<Command>)
    requires commands != []
    ensures Text.Join(Names(commands), ' ') != ""
  {
    MissionText.NameFacts(commands[0]);
    assert Names(commands)[0] == Name(commands[0]);
  }

  /** The client counts exactly the commands that are left. */
  lemma CountIsRemaining(x: Executor.State)
    ensures CountLeft(RemainingReply(x)) == |MissionText.Remaining(x)|
  {
    var left := MissionText.Remaining(x);
    var text := if left == [] then "" else Text.Join(Names(left), ' ');
    Server.ReplyRoundTrip(true, text);
    if left != [] {
      JoinedNotEmpty(left);
      MissionText.RemainingRoundTrip(left);
    }
  }

  /** A drive on which the given missions were appended, in order, since the mission was last cleared, or
      since the start; and nothing else was set. */
  ghost predicate Appended(events: seq<Drive.Event>, missions: seq<seq<Command>>) {
    if events == [] then
      missions == []
    else
      var front, last := events[..|events| - 1], events[|events| - 1];
      match last
      case Frame(_, _) => Appended(front, missions)
      case Mission(cmds, append) =>
        if append then
          && missions != []
          && cmds == Names(missions[|missions| - 1])
          && Appended(front, missions[..|missions| - 1])
        else
          cmds == [] && missions == []
  }

  lemma {:induction false} AppendedIsFlatten(c: Tracker.Camera, events: seq<Drive.Event>, missions: seq<seq<Command>>)
    requires Appended(events, missions)
    ensures Drive.Run(c, Drive.Start(c), events).mission == Mission.Flatten(missions)
  {
    hide Executor.Execute;
    hide Executor.EffectIn;
    hide Tracker.Process;
    hide Tracker.ResultOf;
    if events != [] {
      var front, last := events[..|events| - 1], events[|events| - 1];
      match last
      case Frame(_, _) => AppendedIsFlatten(c, front, missions);
      case Mission(cmds, append) =>
        if append {
          AppendedIsFlatten(c, front, missions[..|missions| - 1]);
          Executor.NamesQueue(missions[|missions| - 1]);
        }
    }
  }

  lemma LeftIsSuffix(c: Tracker.Camera, events: seq<Drive.Event>, missions: seq<seq<Command>>)
    requires Appended(events, missions)
    ensures var left, all := MissionText.Remaining(Drive.Run(c, Drive.Start(c), events).exec), Mission.Flatten(missions);
      |left| <= |all| && all[|all| - |left|..] == left
  {
    hide Drive.Run;
    hide Drive.DwellInv;
    hide Drive.PosInv;
    hide Mission.Flatten;
    hide Appended;
    var s := Drive.Run(c, Drive.Start(c), events);
    Drive.DriveKeepsPromises(c, events);
    AppendedIsFlatten(c, events, missions);
    assert Mission.Flatten(missions) == s.done + MissionText.Remaining(s.exec);
  }

  /** What the map shows after a reply: the nodes kept for the count in it. The worker reports no
      result of 0, so the map is then left as it was. */
  function Displayed(previous: Mission.Path, nodes: Mission.Path, reply: string): Mission.Path {
    var result := CountLeft(reply);
    if result != 0 then Mission.RemainingNodes(nodes, result) else previous
  }

  /** The map highlights the right stretch as long as commands are left, however the drive went: with
      the missions sent in the order of consecutive paths, the nodes on display are one more than the
      commands left, and those commands are exactly the ones of all displayed nodes but the first.
      Once none is left the map is not brought up to date. */
  lemma DisplayFollowsDrive(c: Tracker.Camera, events: seq<Drive.Event>, paths: seq<Mission.Path>,
                            missions: seq<seq<Command>>, previous: Mission.Path)
    requires paths != [] && Mission.Chained(paths) && Mission.CompiledFrom(paths, missions)
    requires Appended(events, missions)
    ensures var left := MissionText.Remaining(Drive.Run(c, Drive.Start(c), events).exec);
      var reply := RemainingReply(Drive.Run(c, Drive.Start(c), events).exec);
      var shown := Displayed(previous, Mission.Cleared(Mission.Joint(paths)), reply);
      && (CountLeft(reply) != 0 <==> left != [])
      && (left != [] ==> Mission.AllServe(left, shown))
      && (left == [] ==> shown == previous)
  {
    hide Mission.AllServe;
    hide Mission.RemainingNodes;
    hide Mission.Chained;
    hide Mission.CompiledFrom;
    hide Mission.Joint;
    hide Mission.Cleared;
    hide Mission.Flatten;
    hide Drive.Run;
    hide Appended;
    hide CountLeft;
    hide RemainingReply;
    var x := Drive.Run(c, Drive.Start(c), events).exec;
    var left, all := MissionText.Remaining(x), Mission.Flatten(missions);
    LeftIsSuffix(c, events, missions);
    CountIsRemaining(x);
    Mission.RemainingNodesAlign(paths, missions, |left|);
  }

  /** What the client asks its worker to do about the mission. */
  datatype Task = Send(mission: seq<Command>) | Clear

  /** The missions that count: those sent since the last clearing. */
  function SinceClear(tasks: seq<Task>): seq<seq<Command>> {
    if tasks == [] then []
    else
      match tasks[|tasks| - 1]
      case Send(mission) => SinceClear(tasks[..|tasks| - 1]) + [mission]
      case Clear => []
  }

  /** A drive on which exactly these tasks reached the car, in this order. */
  ghost predicate Carried(events: seq<Drive.Event>, tasks: seq<Task>) {
    if events == [] then
      tasks == []
    else
      var front, last := events[..|events| - 1], events[|events| - 1];
      match last
      case Frame(_, _) => Carried(front, tasks)
      case Mission(cmds, append) =>
        && tasks != []
        && (match tasks[|tasks| - 1]
            case Send(mission) => append && cmds == Names(mission)
            case Clear => !append && cmds == [])
        && Carried(front, tasks[..|tasks| - 1])
  }

  lemma {:induction false} CarriedIsAppended(events: seq<Drive.Event>, tasks: seq<Task>)
    requires Carried(events, tasks)
    ensures Appended(events, SinceClear(tasks))
  {
    if events != [] {
      var front, last := events[..|events| - 1], events[|events| - 1];
      match last
      case Frame(_, _) => CarriedIsAppended(front, tasks);
      case Mission(_, _) =>
        var before := SinceClear(tasks[..|tasks| - 1]);
        CarriedIsAppended(front, tasks[..|tasks| - 1]);
        match tasks[|tasks| - 1]
        case Send(mission) => assert (before + [mission])[..|before|] == before;
        case Clear =>
    }
  }

  /** The same from the clicks on the map, for the paths clicked since the last clearing. The worker takes
      the tasks from a queue that gives out the newest first; so this holds if each was given to an empty
      queue, and all have been taken. */
  lemma DisplayFollowsClicks(c: Tracker.Camera, events: seq<Drive.Event>, paths: seq<Mission.Path>,
                             clicks: seq<Tasks.Step<Task>>, previous: Mission.Path)
    requires paths != [] && Mission.Chained(paths)
    requires Mission.CompiledFrom(paths, SinceClear(Tasks.Run(clicks).given))
    requires Tasks.InTurn(clicks) && Tasks.Run(clicks).stack == [] && Carried(events, Tasks.Sent(clicks))
    ensures var left := MissionText.Remaining(Drive.Run(c, Drive.Start(c), events).exec);
      var reply := RemainingReply(Drive.Run(c, Drive.Start(c), events).exec);
      var shown := Displayed(previous, Mission.Cleared(Mission.Joint(paths)), reply);
      left != [] ==> Mission.AllServe(left, shown)
  {
    hide *;
    Tasks.OrderIsKept(clicks);
    CarriedIsAppended(events, Tasks.Sent(clicks));
    DisplayFollowsDrive(c, events, paths, SinceClear(Tasks.Sent(clicks)), previous);
  }

  /** Out of turn it can go wrong: a clearing that waits when a mission is clicked reaches the car after
      it, and wipes it. */
  lemma ClearingOvertaken(mission: seq<Command>)
    ensures var clicks := [Tasks.Put(Clear), Tasks.Put(Send(mission)), Tasks.Get, Tasks.Get];
      SinceClear([Clear, Send(mission)]) == [mission] && SinceClear(Tasks.Sent(clicks)) == []
  {
    Tasks.NewestFirst(Clear, Send(mission));
    assert [Clear, Send(mission)][..1] == [Clear];
  }
}
