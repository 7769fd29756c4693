/** Compiling a path of course nodes into a mission. */
module Mission {
  import opened Commands
  import opened Course

  type Path = seq<Node>

  // ---------------------------------------------------------------------------
  // Clearing
  // ---------------------------------------------------------------------------

  /** The path without its empty nodes. */
  function Cleared(path: Path): (kept: Path)
    ensures forall n | n in kept :: n in path && !n.kind.Empty?
    ensures path != [] && !path[|path| - 1].kind.Empty? ==> kept != [] && kept[|kept| - 1] == path[|path| - 1]
  {
    if path == [] then
      []
    else
      var last := path[|path| - 1];
      Cleared(path[..|path| - 1]) + if last.kind.Empty? then [] else [last]
  }

  method ClearEmpty(path: Path) returns (newPath: Path)
    ensures newPath == Cleared(path)
  {
    newPath := [];
    for i := 0 to |path|
      invariant newPath == Cleared(path[..i])
    {
      assert path[..i + 1][..i] == path[..i];
      if path[i].kind != Empty {
        newPath := newPath + [path[i]];
      }
    }
    assert path[..|path|] == path;
  }

  lemma {:induction false} ClearedConcat(p: Path, q: Path)
    ensures Cleared(p + q) == Cleared(p) + Cleared(q)
  {
    ClearedNone();
    hide *;
    if q == [] {
      assert p + q == p;
    } else {
      var front, last := q[..|q| - 1], q[|q| - 1];
      assert q == front + [last] && p + q == (p + front) + [last];
      ClearedConcat(p, front);
      ClearedSnoc(p + front, last);
      ClearedSnoc(front, last);
    }
  }

  lemma ClearedNone()
    ensures Cleared([]) == []
  {
  }

  lemma ClearedSnoc(p: Path, n: Node)
    ensures Cleared(p + [n]) == Cleared(p) + if n.kind.Empty? then [] else [n]
  {
    assert (p + [n])[..|p|] == p;
  }

  // ---------------------------------------------------------------------------
  // Compiling
  // ---------------------------------------------------------------------------

  datatype MissionResult = Compiled(commands: seq<Command>) | IndexError

  /** Looking past the end happens exactly when the final node is neither a line, a parking nor an entry. */
  predicate Compilable(path: Path) {
    |path| <= 1 || !(path[|path| - 1].kind.Inner? || path[|path| - 1].kind.Empty?)
  }

  /** The command that takes the car to node i of the path. */
  ghost function CommandTo(path: Path, i: nat): Command
    requires 0 < i < |path|
  {
    var last := i == |path| - 1;
    match path[i].kind
    case Stopline => if last then Stop else Ignore
    case Parking => if last then Park else Ignore
    case Outer => Enter
    case _ => if !last && path[i + 1].kind.Inner? then Continue else Exit
  }

  ghost predicate IsMission(path: Path, mission: seq<Command>) {
    && |mission| == (if path == [] then 0 else |path| - 1)
    && forall i | 0 <= i < |mission| :: mission[i] == CommandTo(path, i + 1)
  }

  method CreateMission(path: Path) returns (result: MissionResult)
    ensures result.Compiled? <==> Compilable(path)
    ensures result.Compiled? ==> IsMission(path, result.commands)
  {
    var mission: seq<Command> := [];
    var rest: Path := if path == [] then [] else path[1..];
    while rest != []
      invariant if path == [] then rest == [] && mission == [] else |mission| + 1 <= |path| && rest == path[|mission| + 1..]
      invariant forall i | 0 <= i < |mission| :: mission[i] == CommandTo(path, i + 1)
      invariant rest == [] ==> Compilable(path)
      decreases |rest|
    {
      var node := rest[0];
      rest := rest[1..];
      match node.kind {
        case Stopline =>
          if rest != [] { mission := mission + [Ignore]; } else { mission := mission + [Stop]; }
        case Parking =>
          if rest != [] { mission := mission + [Ignore]; } else { mission := mission + [Park]; }
        case Outer =>
          mission := mission + [Enter];
        case _ =>
          if rest == [] {
            assert node == path[|path| - 1];
            return IndexError;
          }
          if rest[0].kind == Inner { mission := mission + [Continue]; } else { mission := mission + [Exit]; }
      }
    }
    return Compiled(mission);
  }

  function Repeat(c: Command, k: nat): (s: seq<Command>)
    ensures |s| == k && forall i | 0 <= i < k :: s[i] == c
  {
    seq(k, _ => c)
  }

  /** A maximal run of k inner nodes, wherever it starts after the first node, becomes
      k-1 times continue and one exit. */
  lemma InnerRunCompiles(path: Path, mission: seq<Command>, a: nat, b: nat)
    requires IsMission(path, mission) && 0 < a < b < |path|
    requires forall i | a <= i < b :: path[i].kind.Inner?
    requires !path[b].kind.Inner?
    ensures mission[a - 1..b - 1] == Repeat(Continue, b - a - 1) + [Exit]
  {
    var run := mission[a - 1..b - 1];
    forall j | 0 <= j < b - a
      ensures run[j] == if j < b - a - 1 then Continue else Exit
    {
      assert run[j] == mission[a - 1 + j] == CommandTo(path, a + j);
    }
  }

  /** The car stops or parks at the end of the mission and nowhere else. */
  lemma HaltsOnlyAtEnd(path: Path, mission: seq<Command>, i: nat)
    requires IsMission(path, mission) && i < |mission|
    ensures mission[i] in {Stop, Park} <==> i == |mission| - 1 && path[i + 1].kind in {Stopline, Parking}
  {
    assert mission[i] == CommandTo(path, i + 1);
  }

  /** What each command stands for, one by one: where it is found, and nowhere else. */
  lemma CommandsStandFor(path: Path, mission: seq<Command>, i: nat)
    requires IsMission(path, mission) && i < |mission|
    ensures var kind, last := path[i + 1].kind, i == |mission| - 1;
      && (mission[i] == Stop <==> kind.Stopline? && last)
      && (mission[i] == Park <==> kind.Parking? && last)
      && (mission[i] == Ignore <==> (kind.Stopline? || kind.Parking?) && !last)
      && (mission[i] == Enter <==> kind.Outer?)
      && (mission[i] == Continue <==> (kind.Inner? || kind.Empty?) && !last && path[i + 2].kind.Inner?)
      && (mission[i] == Exit <==> (kind.Inner? || kind.Empty?) && (last || !path[i + 2].kind.Inner?))
  {
    assert mission[i] == CommandTo(path, i + 1);
  }

  // ---------------------------------------------------------------------------
  // Consecutive missions
  // ---------------------------------------------------------------------------

  /** Whether a command can belong to a node of this kind. */
  predicate Serves(c: Command, kind: NodeType) {
    match kind
    case Stopline => c in {Ignore, Stop}
    case Parking => c in {Ignore, Park}
    case Outer => c == Enter
    case _ => c in {Continue, Exit}
  }

  /** Each path starts, on a node that is not empty, where the path before it ended. */
  ghost predicate Chained(paths: seq<Path>) {
    && (forall i | 0 <= i < |paths| ::
          paths[i] != [] && !paths[i][0].kind.Empty? && !paths[i][|paths[i]| - 1].kind.Empty?)
    && forall i, j | 0 <= i < j < |paths| && j == i + 1 :: paths[j][0] == paths[i][|paths[i]| - 1]
  }

  /** The path on display: the first path, extended by every later one without its first node. */
  ghost function Joint(paths: seq<Path>): (joint: Path)
    requires paths != [] && Chained(paths)
    ensures joint != []
  {
    if |paths| == 1 then paths[0] else Joint(paths[..|paths| - 1]) + paths[|paths| - 1][1..]
  }

  function Flatten(missions: seq<seq<Command>>): seq<Command> {
    if missions == [] then [] else Flatten(missions[..|missions| - 1]) + missions[|missions| - 1]
  }

  ghost predicate CompiledFrom(paths: seq<Path>, missions: seq<seq<Command>>) {
    && |missions| == |paths|
    && forall i | 0 <= i < |paths| :: IsMission(Cleared(paths[i]), missions[i])
  }

  lemma JointGrows(paths: seq<Path>)
    requires |paths| > 1 && Chained(paths)
    ensures var n := |paths| - 1;
      Cleared(Joint(paths)) == Cleared(Joint(paths[..n])) + Cleared(paths[n])[1..]
  {
    var n := |paths| - 1;
    var first, tail := [paths[n][0]], paths[n][1..];
    assert paths[n] == first + tail && !first[0].kind.Empty?;
    assert Joint(paths) == Joint(paths[..n]) + tail;
    var joint, before := Joint(paths), Joint(paths[..n]);
    hide *;
    ClearedConcat(first, tail);
    ClearedOne(paths[n][0]);
    ClearedConcat(before, tail);
    assert ([paths[n][0]] + Cleared(tail))[1..] == Cleared(tail);
  }

  lemma ClearedOne(n: Node)
    requires !n.kind.Empty?
    ensures Cleared([n]) == [n]
  {
    assert [n][..0] == [];
  }

  /** One command for every node after the first, each fit for its node. */
  ghost predicate AllServe(commands: seq<Command>, nodes: Path) {
    && |commands| == |nodes| - 1
    && forall i | 0 <= i < |commands| :: Serves(commands[i], nodes[i + 1].kind)
  }

  lemma ServingConcat(c: seq<Command>, p: Path, d: seq<Command>, q: Path)
    requires AllServe(c, p) && AllServe(d, q)
    ensures AllServe(c + d, p + q[1..])
  {
  }

  lemma MissionServes(path: Path, mission: seq<Command>)
    requires path != [] && IsMission(path, mission)
    ensures AllServe(mission, path)
  {
    forall i | 0 <= i < |mission|
      ensures Serves(mission[i], path[i + 1].kind)
    {
      assert mission[i] == CommandTo(path, i + 1);
    }
  }

  /** The last path and its mission, and what the others are. */
  lemma LastPath(paths: seq<Path>, missions: seq<seq<Command>>)
    requires paths != [] && Chained(paths) && CompiledFrom(paths, missions)
    ensures var n := |paths| - 1;
      && |missions| == |paths| && Cleared(paths[n]) != [] && IsMission(Cleared(paths[n]), missions[n])
      && (n == 0 ==> Flatten(missions) == missions[n] && Joint(paths) == paths[n])
      && (n > 0 ==>
            && Chained(paths[..n]) && CompiledFrom(paths[..n], missions[..n])
            && Flatten(missions) == Flatten(missions[..n]) + missions[n])
  {
    var n := |paths| - 1;
    PrefixChained(paths, missions);
    assert IsMission(Cleared(paths[n]), missions[n]);
    assert Cleared(paths[n]) != [];
    hide IsMission;
    hide Cleared;
    hide Chained;
    hide CompiledFrom;
    if n == 0 {
      assert missions[..0] == [];
      assert Flatten(missions[..0]) == [] && [] + missions[0] == missions[0];
    }
  }

  lemma PrefixChained(paths: seq<Path>, missions: seq<seq<Command>>)
    requires |paths| > 0 && Chained(paths) && CompiledFrom(paths, missions)
    ensures Chained(paths[..|paths| - 1]) && CompiledFrom(paths[..|paths| - 1], missions[..|paths| - 1])
  {
    hide IsMission;
    hide Cleared;
  }

  /** Sent one after the other, the missions hold exactly one command for every node after
      the first of the cleared joint path, in path order. */
  lemma {:induction false} MissionsFollowJoint(paths: seq<Path>, missions: seq<seq<Command>>)
    requires paths != [] && Chained(paths) && CompiledFrom(paths, missions)
    ensures AllServe(Flatten(missions), Cleared(Joint(paths)))
  {
    var n := |paths| - 1;
    LastPath(paths, missions);
    hide *;
    MissionServes(Cleared(paths[n]), missions[n]);
    if n > 0 {
      MissionsFollowJoint(paths[..n], missions[..n]);
      JointGrows(paths);
      ServingConcat(Flatten(missions[..n]), Cleared(Joint(paths[..n])), missions[n], Cleared(paths[n]));
    }
  }

  /** The nodes that the display keeps when `remaining` commands are left. */
  function RemainingNodes(nodes: Path, remaining: nat): Path {
    if remaining + 1 >= |nodes| then nodes else nodes[|nodes| - (remaining + 1)..]
  }

  /** With the last r commands of all missions still to run, the display shows r + 1 nodes,
      and the commands left are those of every shown node but the first. */
  lemma RemainingNodesAlign(paths: seq<Path>, missions: seq<seq<Command>>, r: nat)
    requires paths != [] && Chained(paths) && CompiledFrom(paths, missions)
    requires r <= |Flatten(missions)|
    ensures AllServe(Flatten(missions)[|Flatten(missions)| - r..], RemainingNodes(Cleared(Joint(paths)), r))
  {
    hide *;
    MissionsFollowJoint(paths, missions);
    LastCommandsServe(Flatten(missions), Cleared(Joint(paths)), r);
  }

  lemma LastCommandsServe(all: seq<Command>, nodes: Path, r: nat)
    requires AllServe(all, nodes) && r <= |all|
    ensures AllServe(all[|all| - r..], RemainingNodes(nodes, r))
  {
    var left, shown := all[|all| - r..], RemainingNodes(nodes, r);
    forall k | 0 <= k < |left|
      ensures Serves(left[k], shown[k + 1].kind)
    {
      assert Serves(all[|all| - r + k], nodes[|all| - r + k + 1].kind);
    }
    hide Serves;
  }
}
