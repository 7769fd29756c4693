/** Route planning on the course map: Dijkstra over mutable weighted nodes. */
module Course {

  datatype NodeType = Stopline | Parking | Inner | Outer | Empty

  class Node {
    const kind: NodeType
    var outgoing: seq<Edge>

    constructor (kind: NodeType)
      ensures this.kind == kind && outgoing == []
    {
      this.kind := kind;
      outgoing := [];
    }

    method AddEdge(edge: Edge)
      modifies this
      ensures outgoing == old(outgoing) + [edge]
    {
      outgoing := outgoing + [edge];
    }
  }

  // Edges are never changed once built, so they are values.
  datatype Edge = Edge(start: Node, end: Node, cost: real)

  datatype Weight = Fin(value: real) | Inf {
    predicate Less(other: Weight) {
      Fin? && (other.Inf? || value < other.value)
    }

    function Plus(cost: real): Weight {
      if Inf? then Inf else Fin(value + cost)
    }
  }

  // ---------------------------------------------------------------------------
  // Walks in the graph that a course spans
  // ---------------------------------------------------------------------------

  type Graph = map<Node, seq<Edge>>

  /** The outgoing edges of every course node. An edge may lead outside the course. */
  ghost function GraphOf(course: seq<Node>): Graph
    reads course
  {
    map n | n in course :: n.outgoing
  }

  ghost predicate NonNegative(g: Graph) {
    forall n, e | n in g && e in g[n] :: e.cost >= 0.0
  }

  /** The map editor's way of adding an edge: a negative cost is refused. So costs stay non-negative. */
  method CreateEdge(course: seq<Node>, nodeStart: Node?, nodeEnd: Node?, cost: real) returns (created: bool)
    requires NonNegative(GraphOf(course))
    modifies if nodeStart == null then {} else {nodeStart}
    ensures NonNegative(GraphOf(course))
    ensures created <==> cost >= 0.0 && nodeStart != null && nodeEnd != null
    ensures nodeStart != null ==>
      nodeStart.outgoing == old(nodeStart.outgoing) + if created then [Edge(nodeStart, nodeEnd, cost)] else []
  {
    if cost < 0.0 {
      return false;
    }
    if nodeStart == null || nodeEnd == null {
      return false;
    }
    ghost var g := GraphOf(course);
    nodeStart.AddEdge(Edge(nodeStart, nodeEnd, cost));
    assert forall n | n in course && n != nodeStart :: n.outgoing == g[n];
    assert nodeStart in course ==> nodeStart.outgoing == g[nodeStart] + [Edge(nodeStart, nodeEnd, cost)];
    return true;
  }

  predicate Distinct<T(==)>(s: seq<T>) {
    forall i, j | 0 <= i < j < |s| :: s[i] != s[j]
  }

  ghost function End(src: Node, walk: seq<Edge>): Node {
    if walk == [] then src else walk[|walk| - 1].end
  }

  /** Consecutive edges taken from src, never leaving the course. */
  ghost predicate IsWalk(g: Graph, src: Node, walk: seq<Edge>)
    ensures IsWalk(g, src, walk) ==> End(src, walk) in g
  {
    if walk == [] then
      src in g
    else
      var front, last := walk[..|walk| - 1], walk[|walk| - 1];
      IsWalk(g, src, front) && last in g[End(src, front)] && last.end in g
  }

  ghost predicate Leads(g: Graph, src: Node, walk: seq<Edge>, dst: Node?) {
    IsWalk(g, src, walk) && End(src, walk) == dst
  }

  ghost function Cost(walk: seq<Edge>): real {
    if walk == [] then 0.0 else Cost(walk[..|walk| - 1]) + walk[|walk| - 1].cost
  }

  /** The nodes a walk visits. */
  ghost function Stops(src: Node, walk: seq<Edge>): (stops: seq<Node>)
    ensures |stops| == |walk| + 1 && stops[|walk|] == End(src, walk)
  {
    if walk == [] then [src] else Stops(src, walk[..|walk| - 1]) + [walk[|walk| - 1].end]
  }

  lemma WalkExtends(g: Graph, src: Node, walk: seq<Edge>, e: Edge)
    requires IsWalk(g, src, walk) && e in g[End(src, walk)] && e.end in g
    ensures IsWalk(g, src, walk + [e])
    ensures End(src, walk + [e]) == e.end
    ensures Cost(walk + [e]) == Cost(walk) + e.cost
    ensures Stops(src, walk + [e]) == Stops(src, walk) + [e.end]
  {
    assert (walk + [e])[..|walk|] == walk;
  }

  // ---------------------------------------------------------------------------
  // The run invariant of the search
  // ---------------------------------------------------------------------------

  /** What the search knows of a node: its weight and the walk behind its stored path. */
  datatype Label = Label(weight: Weight, walk: seq<Edge>)

  type Labels = map<Node, Label>

  /** A finite weight is the cost of a simple walk whose earlier stops are all in `inner`. */
  ghost predicate Backed(g: Graph, src: Node, inner: set<Node>, v: Node, l: Label) {
    match l.weight
    case Inf => l.walk == []
    case Fin(w) =>
      && Leads(g, src, l.walk, v)
      && Cost(l.walk) == w
      && Distinct(Stops(src, l.walk))
      && forall i | 0 <= i < |l.walk| :: Stops(src, l.walk)[i] in inner
  }

  ghost predicate Sound(g: Graph, src: Node, inner: set<Node>, known: Labels) {
    && known.Keys == g.Keys
    && inner <= g.Keys
    && (src in g ==> known[src] == Label(Fin(0.0), []))
    && forall v | v in known :: Backed(g, src, inner, v, known[v])
  }

  /** No node still unvisited weighs less than a node already removed. */
  ghost predicate Ordered(done: set<Node>, known: Labels) {
    forall u, v | u in done && u in known && v in known && v !in done ::
      !known[v].weight.Less(known[u].weight)
  }

  ghost predicate EdgeRelaxed(known: Labels, u: Node, e: Edge)
    requires u in known
  {
    e.end in known ==> !known[u].weight.Plus(e.cost).Less(known[e.end].weight)
  }

  ghost predicate Relaxed(g: Graph, done: set<Node>, known: Labels)
    requires done <= g.Keys == known.Keys
  {
    forall u, e | u in done && e in g[u] :: EdgeRelaxed(known, u, e)
  }

  /** The invariant of the outer loop; `done` are the nodes removed so far. */
  ghost predicate SearchInv(g: Graph, src: Node, done: set<Node>, known: Labels) {
    && Sound(g, src, done, known)
    && Ordered(done, known)
    && Relaxed(g, done, known)
  }

  ghost predicate IsLightest(done: set<Node>, known: Labels, u: Node) {
    && u in known && u !in done
    && forall v | v in known && v !in done :: !known[v].weight.Less(known[u].weight)
  }

  /** The invariant while the first k edges of the lightest node u have been relaxed. */
  ghost predicate RelaxingInv(g: Graph, src: Node, done: set<Node>, known: Labels, u: Node, k: nat) {
    && Sound(g, src, done + {u}, known)
    && Ordered(done, known)
    && Relaxed(g, done, known)
    && IsLightest(done, known, u)
    && k <= |g[u]|
    && forall i | 0 <= i < k :: EdgeRelaxed(known, u, g[u][i])
  }

  lemma StartRelaxing(g: Graph, src: Node, done: set<Node>, known: Labels, u: Node)
    requires SearchInv(g, src, done, known) && IsLightest(done, known, u)
    ensures RelaxingInv(g, src, done, known, u, 0)
  {
    forall v | v in known
      ensures Backed(g, src, done + {u}, v, known[v])
    {
      assert Backed(g, src, done, v, known[v]);
    }
  }

  lemma StopRelaxing(g: Graph, src: Node, done: set<Node>, known: Labels, u: Node)
    requires u in g && RelaxingInv(g, src, done, known, u, |g[u]|)
    ensures SearchInv(g, src, done + {u}, known)
  {
  }

  ghost predicate Improves(known: Labels, done: set<Node>, u: Node, e: Edge)
    requires u in known
  {
    e.end in known && e.end !in done && known[u].weight.Plus(e.cost).Less(known[e.end].weight)
  }

  /** The effect of relaxing one edge of u on all labels. */
  ghost function RelaxEdge(known: Labels, done: set<Node>, u: Node, e: Edge): Labels
    requires u in known
  {
    if Improves(known, done, u, e) then
      known[e.end := Label(known[u].weight.Plus(e.cost), known[u].walk + [e])]
    else
      known
  }

  lemma {:induction false} CostNonNegative(g: Graph, src: Node, walk: seq<Edge>)
    requires NonNegative(g) && IsWalk(g, src, walk)
    ensures Cost(walk) >= 0.0
  {
    if walk != [] {
      CostNonNegative(g, src, walk[..|walk| - 1]);
    }
  }

  lemma RelaxingKeepsSound(g: Graph, src: Node, done: set<Node>, known: Labels, u: Node, e: Edge)
    requires NonNegative(g) && u in g && e in g[u]
    requires Sound(g, src, done + {u}, known) && u !in done
    ensures Sound(g, src, done + {u}, RelaxEdge(known, done, u, e))
    ensures RelaxEdge(known, done, u, e)[u] == known[u]
  {
    if Improves(known, done, u, e) {
      assert Backed(g, src, done + {u}, u, known[u]);
      CostNonNegative(g, src, known[u].walk);
      ImprovedIsBacked(g, src, done, known, u, e);
      hide Backed;
      hide NonNegative;
    }
  }

  lemma ImprovedIsBacked(g: Graph, src: Node, done: set<Node>, known: Labels, u: Node, e: Edge)
    requires u in g && e in g[u] && u in known && u !in done && e.end in g && e.end !in done && e.end != u
    requires Backed(g, src, done + {u}, u, known[u]) && known[u].weight.Fin?
    ensures Backed(g, src, done + {u}, e.end, Label(known[u].weight.Plus(e.cost), known[u].walk + [e]))
  {
    var walk, stops := known[u].walk, Stops(src, known[u].walk);
    assert End(src, walk) == u;
    WalkExtends(g, src, walk, e);
    assert forall i | 0 <= i < |stops| :: stops[i] in done + {u};
    hide Stops;
    hide IsWalk;
    hide Cost;
  }

  lemma RelaxingKeepsRelaxed(g: Graph, done: set<Node>, known: Labels, u: Node, k: nat)
    requires done <= g.Keys == known.Keys && Relaxed(g, done, known) && Ordered(done, known)
    requires u in g && u !in done && k < |g[u]| && g[u][k].cost >= 0.0
    requires IsLightest(done, known, u)
    requires forall i | 0 <= i < k :: EdgeRelaxed(known, u, g[u][i])
    ensures Relaxed(g, done, RelaxEdge(known, done, u, g[u][k]))
    ensures forall i | 0 <= i <= k :: EdgeRelaxed(RelaxEdge(known, done, u, g[u][k]), u, g[u][i])
  {
    var e := g[u][k];
    var after := RelaxEdge(known, done, u, e);
    forall x, f | x in done && f in g[x]
      ensures EdgeRelaxed(after, x, f)
    {
      assert EdgeRelaxed(known, x, f);
    }
    forall i | 0 <= i <= k
      ensures EdgeRelaxed(after, u, g[u][i])
    {
      assert i < k ==> EdgeRelaxed(known, u, g[u][i]);
    }
  }

  lemma RelaxingKeepsOrder(done: set<Node>, known: Labels, u: Node, e: Edge)
    requires Ordered(done, known) && IsLightest(done, known, u) && e.cost >= 0.0
    ensures Ordered(done, RelaxEdge(known, done, u, e))
    ensures IsLightest(done, RelaxEdge(known, done, u, e), u)
  {
    var after := RelaxEdge(known, done, u, e);
    forall x, v | x in done && x in after && v in after && v !in done
      ensures !after[v].weight.Less(after[x].weight)
    {
      assert !known[v].weight.Less(known[x].weight) && !known[u].weight.Less(known[x].weight);
    }
  }

  lemma RelaxingKeepsInv(g: Graph, src: Node, done: set<Node>, known: Labels, u: Node, k: nat)
    requires NonNegative(g) && u in g && RelaxingInv(g, src, done, known, u, k) && k < |g[u]|
    ensures RelaxingInv(g, src, done, RelaxEdge(known, done, u, g[u][k]), u, k + 1)
  {
    assert g[u][k] in g[u];
    RelaxingKeepsSound(g, src, done, known, u, g[u][k]);
    RelaxingKeepsOrder(done, known, u, g[u][k]);
    RelaxingKeepsRelaxed(g, done, known, u, k);
  }

  // ---------------------------------------------------------------------------
  // Why a removed weight is a distance
  // ---------------------------------------------------------------------------

  /** However a walk runs, its end, or some unvisited node, weighs no more than the walk costs. */
  lemma {:induction false} WalkMeetsFrontier(g: Graph, src: Node, done: set<Node>, known: Labels, walk: seq<Edge>)
    returns (y: Node)
    requires NonNegative(g) && SearchInv(g, src, done, known) && IsWalk(g, src, walk)
    ensures y in known && !Fin(Cost(walk)).Less(known[y].weight)
    ensures y == End(src, walk) || y !in done
  {
    if walk == [] {
      y := src;
    } else {
      var front, last := walk[..|walk| - 1], walk[|walk| - 1];
      y := WalkMeetsFrontier(g, src, done, known, front);
      if y in done {
        assert EdgeRelaxed(known, y, last);
        y := last.end;
      }
    }
  }

  /** Every walk to a removed node, or to the lightest unvisited one, costs at least its weight. */
  lemma WeightIsDistance(g: Graph, src: Node, done: set<Node>, known: Labels, v: Node, walk: seq<Edge>)
    requires NonNegative(g) && SearchInv(g, src, done, known)
    requires v in done || IsLightest(done, known, v)
    requires Leads(g, src, walk, v)
    ensures known[v].weight.Fin? && known[v].weight.value <= Cost(walk)
    ensures Leads(g, src, known[v].walk, v) && Cost(known[v].walk) == known[v].weight.value
  {
    var y := WalkMeetsFrontier(g, src, done, known, walk);
    assert !known[y].weight.Less(known[v].weight);
    assert Backed(g, src, done, v, known[v]);
  }

  /** Only removed nodes stand before the end of the walk. */
  ghost predicate Through(src: Node, done: set<Node>, walk: seq<Edge>) {
    forall i | 0 <= i < |walk| :: Stops(src, walk)[i] in done
  }

  /** The weight of a node, unvisited ones included, is the least cost of the walks to it through
      removed nodes; infinite, if there is none. */
  lemma {:induction false} WeightIsBestThrough(g: Graph, src: Node, done: set<Node>, known: Labels, walk: seq<Edge>)
    requires NonNegative(g) && SearchInv(g, src, done, known) && IsWalk(g, src, walk) && Through(src, done, walk)
    ensures var v := End(src, walk);
      && known[v].weight.Fin? && known[v].weight.value <= Cost(walk)
      && Leads(g, src, known[v].walk, v) && Through(src, done, known[v].walk)
      && Cost(known[v].walk) == known[v].weight.value
  {
    var v := End(src, walk);
    assert Backed(g, src, done, v, known[v]);
    if walk != [] {
      var front, last := walk[..|walk| - 1], walk[|walk| - 1];
      var stops, u := Stops(src, front), End(src, front);
      assert Stops(src, walk) == stops + [v] && stops[|front|] == u;
      assert forall i | 0 <= i < |walk| :: Stops(src, walk)[i] == stops[i];
      WeightIsBestThrough(g, src, done, known, front);
      assert u in done && EdgeRelaxed(known, u, last);
    }
  }

  // ---------------------------------------------------------------------------
  // The search itself
  // ---------------------------------------------------------------------------

  class WeightedNode {
    const node: Node
    var path: seq<Node>
    var weight: Weight

    constructor (node: Node, path: seq<Node>, weight: Weight)
      ensures this.node == node && this.path == path && this.weight == weight
    {
      this.node := node;
      this.path := path;
      this.weight := weight;
    }
  }

  /** The first of the lightest nodes, as a linear scan finds it. */
  method FirstLightest(unvisited: seq<WeightedNode>) returns (m: nat)
    requires unvisited != []
    ensures m < |unvisited|
    ensures forall i | 0 <= i < |unvisited| :: !unvisited[i].weight.Less(unvisited[m].weight)
    ensures forall i | 0 <= i < m :: unvisited[m].weight.Less(unvisited[i].weight)
  {
    m := 0;
    for k := 1 to |unvisited|
      invariant m < k
      invariant forall i | 0 <= i < k :: !unvisited[i].weight.Less(unvisited[m].weight)
      invariant forall i | 0 <= i < m :: unvisited[m].weight.Less(unvisited[i].weight)
    {
      if unvisited[k].weight.Less(unvisited[m].weight) {
        m := k;
      }
    }
  }

  /** A weighted node carries its node's label. */
  ghost predicate Carries(w: WeightedNode, src: Node, known: Labels)
    reads w
  {
    && w.node in known
    && w.weight == known[w.node].weight
    && w.path == Stops(src, known[w.node].walk)
  }

  /** The list holds exactly one weighted node for every node not in done. */
  ghost predicate Covers(unvisited: seq<WeightedNode>, done: set<Node>, known: Labels) {
    && (forall i, j | 0 <= i < j < |unvisited| :: unvisited[i].node != unvisited[j].node)
    && (forall i | 0 <= i < |unvisited| :: unvisited[i].node in known && unvisited[i].node !in done)
    && (forall v | v in known && v !in done :: exists i :: 0 <= i < |unvisited| && unvisited[i].node == v)
  }

  /** The whole state of the search between two visits. */
  ghost predicate Searching(g: Graph, src: Node, unvisited: seq<WeightedNode>, done: set<Node>, known: Labels)
    reads unvisited
  {
    && SearchInv(g, src, done, known)
    && Covers(unvisited, done, known)
    && forall k | 0 <= k < |unvisited| :: Carries(unvisited[k], src, known)
  }

  method Remove(unvisited: seq<WeightedNode>, m: nat, ghost done: set<Node>, ghost known: Labels)
    returns (rest: seq<WeightedNode>)
    requires Covers(unvisited, done, known) && m < |unvisited|
    ensures Covers(rest, done + {unvisited[m].node}, known)
    ensures |rest| == |unvisited| - 1
    ensures forall i | 0 <= i < |rest| :: rest[i] == unvisited[if i < m then i else i + 1]
  {
    rest := unvisited[..m] + unvisited[m + 1..];
    forall v | v in known && v !in done + {unvisited[m].node}
      ensures exists i :: 0 <= i < |rest| && rest[i].node == v
    {
      var i :| 0 <= i < |unvisited| && unvisited[i].node == v;
      assert rest[if i < m then i else i - 1].node == v;
    }
  }

  /** Offers one edge of cur to every unvisited node it leads to. */
  method Relax(unvisited: seq<WeightedNode>, cur: WeightedNode, edge: Edge)
    requires cur in unvisited && edge.cost >= 0.0
    requires forall i, j | 0 <= i < j < |unvisited| :: unvisited[i].node != unvisited[j].node
    modifies unvisited
    ensures forall w | w in unvisited ::
      if w.node == edge.end && old(cur.weight.Plus(edge.cost).Less(w.weight)) then
        w.weight == old(cur.weight.Plus(edge.cost)) && w.path == old(cur.path) + [w.node]
      else
        w.weight == old(w.weight) && w.path == old(w.path)
  {
    for j := 0 to |unvisited|
      invariant forall k | 0 <= k < j ::
        if unvisited[k].node == edge.end && old(cur.weight.Plus(edge.cost).Less(unvisited[k].weight)) then
          unvisited[k].weight == old(cur.weight.Plus(edge.cost)) && unvisited[k].path == old(cur.path) + [edge.end]
        else
          unvisited[k].weight == old(unvisited[k].weight) && unvisited[k].path == old(unvisited[k].path)
      invariant forall k | j <= k < |unvisited| ::
        unvisited[k].weight == old(unvisited[k].weight) && unvisited[k].path == old(unvisited[k].path)
      invariant cur.weight == old(cur.weight) && cur.path == old(cur.path)
    {
      var node := unvisited[j];
      if edge.end == node.node {
        if cur.weight.Plus(edge.cost).Less(node.weight) {
          node.path := cur.path + [node.node];
          node.weight := cur.weight.Plus(edge.cost);
        }
      }
    }
  }

  /** What relaxing an edge does to the label of one unvisited node. */
  lemma RelaxedLabel(src: Node, done: set<Node>, known: Labels, u: Node, e: Edge, v: Node)
    requires u in known && v in known && v !in done
    ensures v in RelaxEdge(known, done, u, e)
    ensures var l := RelaxEdge(known, done, u, e)[v];
      if v == e.end && known[u].weight.Plus(e.cost).Less(known[v].weight) then
        l.weight == known[u].weight.Plus(e.cost) && Stops(src, l.walk) == Stops(src, known[u].walk) + [v]
      else
        l == known[v]
  {
    assert (known[u].walk + [e])[..|known[u].walk|] == known[u].walk;
  }

  ghost predicate Agree(vs: set<Node>, before: Labels, known: Labels) {
    forall v | v in vs :: v in before && v in known && known[v] == before[v]
  }

  lemma AgreeSelf(g: Graph, src: Node, done: set<Node>, known: Labels, u: Node)
    requires SearchInv(g, src, done, known) && u in known
    ensures Agree(done + {u}, known, known)
  {
  }

  lemma RelaxingKeepsAgree(done: set<Node>, before: Labels, known: Labels, u: Node, e: Edge)
    requires Agree(done + {u}, before, known) && u in known && e.cost >= 0.0
    ensures Agree(done + {u}, before, RelaxEdge(known, done, u, e))
  {
  }

  /** Each weighted node carries its node's label. */
  ghost predicate AllCarry(unvisited: seq<WeightedNode>, src: Node, known: Labels)
    reads unvisited
  {
    forall w | w in unvisited :: Carries(w, src, known)
  }

  /** Different unvisited nodes, the lightest among them. */
  ghost predicate Pending(unvisited: seq<WeightedNode>, cur: WeightedNode, g: Graph, done: set<Node>) {
    && cur in unvisited
    && (forall i, j | 0 <= i < j < |unvisited| :: unvisited[i].node != unvisited[j].node)
    && forall w | w in unvisited :: w.node in g && w.node !in done
  }

  /** Relaxes every edge of the lightest node. */
  method RelaxAll(course: seq<Node>, unvisited: seq<WeightedNode>, cur: WeightedNode,
                  ghost src: Node, ghost done: set<Node>, ghost before: Labels)
    returns (ghost known: Labels)
    requires NonNegative(GraphOf(course)) && Searching(GraphOf(course), src, unvisited, done, before)
    requires cur in unvisited && IsLightest(done, before, cur.node)
    modifies unvisited
    ensures GraphOf(course) == old(GraphOf(course))
    ensures SearchInv(GraphOf(course), src, done + {cur.node}, known) && Covers(unvisited, done, known)
    ensures AllCarry(unvisited, src, known)
    ensures Agree(done + {cur.node}, before, known)
  {
    known := before;
    ghost var g := GraphOf(course);
    SearchingFacts(g, src, unvisited, cur, done, before);
    StartRelaxing(g, src, done, known, cur.node);
    AgreeSelf(g, src, done, before, cur.node);
    OutgoingIs(course, cur.node);
    hide *;
    for k := 0 to |cur.node.outgoing|
      invariant g == GraphOf(course) && known.Keys == g.Keys && cur.node.outgoing == g[cur.node]
      invariant AllCarry(unvisited, src, known)
      invariant RelaxingInv(g, src, done, known, cur.node, k)
      invariant Agree(done + {cur.node}, before, known)
    {
      RelaxingKeepsInv(g, src, done, known, cur.node, k);
      RelaxingKeepsAgree(done, before, known, cur.node, g[cur.node][k]);
      known := RelaxCarried(unvisited, cur, k, g, src, done, known);
    }
    StopRelaxing(g, src, done, known, cur.node);
    CoversSame(unvisited, done, before, known);
  }

  /** Relaxes edge k of the lightest node; the weighted nodes then carry the relaxed labels. */
  method RelaxCarried(unvisited: seq<WeightedNode>, cur: WeightedNode, k: nat,
                      ghost g: Graph, ghost src: Node, ghost done: set<Node>, ghost before: Labels)
    returns (ghost known: Labels)
    requires Pending(unvisited, cur, g, done) && before.Keys == g.Keys && NonNegative(g)
    requires cur.node in g && cur.node.outgoing == g[cur.node] && k < |cur.node.outgoing|
    requires AllCarry(unvisited, src, before)
    modifies unvisited
    ensures known == RelaxEdge(before, done, cur.node, g[cur.node][k]) && known.Keys == g.Keys
    ensures AllCarry(unvisited, src, known)
  {
    var edge := cur.node.outgoing[k];
    assert edge in g[cur.node];
    known := RelaxEdge(before, done, cur.node, edge);
    Relax(unvisited, cur, edge);
    forall w | w in unvisited
      ensures Carries(w, src, known)
    {
      RelaxedLabel(src, done, before, cur.node, edge, w.node);
    }
  }

  lemma SearchingFacts(g: Graph, src: Node, unvisited: seq<WeightedNode>, cur: WeightedNode, done: set<Node>,
                       known: Labels)
    requires Searching(g, src, unvisited, done, known) && cur in unvisited
    ensures SearchInv(g, src, done, known) && Covers(unvisited, done, known) && known.Keys == g.Keys
    ensures Pending(unvisited, cur, g, done) && cur.node in g && AllCarry(unvisited, src, known)
  {
  }

  lemma OutgoingIs(course: seq<Node>, n: Node)
    ensures n in GraphOf(course) ==> GraphOf(course)[n] == n.outgoing
  {
  }

  lemma CoversSame(unvisited: seq<WeightedNode>, done: set<Node>, before: Labels, known: Labels)
    requires Covers(unvisited, done, before) && before.Keys == known.Keys
    ensures Covers(unvisited, done, known)
  {
    forall v | v in known && v !in done
      ensures exists i :: 0 <= i < |unvisited| && unvisited[i].node == v
    {
      assert v in before;
    }
  }

  /** Relaxes every edge of the lightest node, then takes it off the list. */
  method Visit(course: seq<Node>, unvisited: seq<WeightedNode>, m: nat,
               ghost src: Node, ghost done: set<Node>, ghost before: Labels)
    returns (rest: seq<WeightedNode>, ghost known: Labels)
    requires NonNegative(GraphOf(course)) && Searching(GraphOf(course), src, unvisited, done, before)
    requires m < |unvisited| && IsLightest(done, before, unvisited[m].node)
    modifies unvisited
    ensures GraphOf(course) == old(GraphOf(course))
    ensures Searching(GraphOf(course), src, rest, done + {unvisited[m].node}, known)
    ensures Agree(done + {unvisited[m].node}, before, known)
    ensures |rest| == |unvisited| - 1
    ensures forall i | 0 <= i < |rest| :: rest[i] == unvisited[if i < m then i else i + 1]
  {
    hide SearchInv;
    hide GraphOf;
    known := RelaxAll(course, unvisited, unvisited[m], src, done, before);
    rest := Remove(unvisited, m, done, known);
  }

  ghost function StartLabels(g: Graph, src: Node): Labels {
    map n | n in g :: Label(if n == src then Fin(0.0) else Inf, [])
  }

  lemma StartSearching(g: Graph, src: Node, course: seq<Node>, unvisited: seq<WeightedNode>)
    requires Distinct(course) && |unvisited| == |course| && g.Keys == set n | n in course
    requires forall k | 0 <= k < |course| :: unvisited[k].node == course[k] && unvisited[k].path == [src]
    requires forall k | 0 <= k < |course| :: unvisited[k].weight == if course[k] == src then Fin(0.0) else Inf
    ensures Searching(g, src, unvisited, {}, StartLabels(g, src))
  {
    forall v | v in g
      ensures exists i :: 0 <= i < |unvisited| && unvisited[i].node == v
    {
      var i :| 0 <= i < |course| && course[i] == v;
      assert unvisited[i].node == v;
    }
  }

  /** One weighted node for every course node: weight 0 for src, infinite for all others. */
  method Unvisited(course: seq<Node>, src: Node) returns (unvisited: seq<WeightedNode>, ghost known: Labels)
    requires Distinct(course)
    ensures forall k | 0 <= k < |unvisited| :: fresh(unvisited[k])
    ensures |unvisited| == |course| && Searching(GraphOf(course), src, unvisited, {}, known)
  {
    var path := [src];
    unvisited := [];
    for i := 0 to |course|
      invariant |unvisited| == i
      invariant forall k | 0 <= k < i :: fresh(unvisited[k]) && unvisited[k].node == course[k]
      invariant forall k | 0 <= k < i :: unvisited[k].path == [src]
      invariant forall k | 0 <= k < i :: unvisited[k].weight == if course[k] == src then Fin(0.0) else Inf
    {
      var entry: WeightedNode;
      if course[i] == src {
        entry := new WeightedNode(src, path, Fin(0.0));
      } else {
        entry := new WeightedNode(course[i], path, Inf);
      }
      unvisited := unvisited + [entry];
    }
    known := StartLabels(GraphOf(course), src);
    StartSearching(GraphOf(course), src, course, unvisited);
  }

  lemma LightestEntry(g: Graph, src: Node, unvisited: seq<WeightedNode>, done: set<Node>, known: Labels, m: nat)
    requires m < |unvisited| && Searching(g, src, unvisited, done, known)
    requires forall i | 0 <= i < |unvisited| :: !unvisited[i].weight.Less(unvisited[m].weight)
    ensures IsLightest(done, known, unvisited[m].node)
    ensures unvisited[m].node in known && unvisited[m].path == Stops(src, known[unvisited[m].node].walk)
  {
    forall v | v in known && v !in done
      ensures !known[v].weight.Less(known[unvisited[m].node].weight)
    {
      var i :| 0 <= i < |unvisited| && unvisited[i].node == v;
      assert Carries(unvisited[i], src, known) && Carries(unvisited[m], src, known);
    }
  }

  lemma LightestIsClosest(g: Graph, src: Node, unvisited: seq<WeightedNode>, done: set<Node>, known: Labels, v: Node)
    requires NonNegative(g) && Searching(g, src, unvisited, done, known) && IsLightest(done, known, v)
    ensures Distinct(Stops(src, known[v].walk))
    ensures forall other | Leads(g, src, other, v) ::
      Leads(g, src, known[v].walk, v) && Cost(known[v].walk) <= Cost(other)
    ensures (forall other :: !Leads(g, src, other, v)) ==> known[v].walk == []
    ensures forall x, other | Leads(g, src, other, x) ::
      x in done || (Leads(g, src, known[v].walk, v) && Cost(other) >= Cost(known[v].walk))
  {
    assert Backed(g, src, done, v, known[v]);
    NearerIsTaken(g, src, unvisited, done, known, v);
    forall other | Leads(g, src, other, v)
      ensures Leads(g, src, known[v].walk, v) && Cost(known[v].walk) <= Cost(other)
    {
      WeightIsDistance(g, src, done, known, v, other);
    }
  }

  /** Whatever is cheaper to reach than the lightest unvisited node has been removed. */
  lemma NearerIsTaken(g: Graph, src: Node, unvisited: seq<WeightedNode>, done: set<Node>, known: Labels, v: Node)
    requires NonNegative(g) && Searching(g, src, unvisited, done, known) && IsLightest(done, known, v)
    ensures forall x, other | Leads(g, src, other, x) ::
      x in done || (Leads(g, src, known[v].walk, v) && Cost(other) >= Cost(known[v].walk))
  {
    forall x, other | Leads(g, src, other, x) && x !in done
      ensures Leads(g, src, known[v].walk, v) && Cost(other) >= Cost(known[v].walk)
    {
      var y := WalkMeetsFrontier(g, src, done, known, other);
      assert Backed(g, src, done, v, known[v]);
    }
  }

  lemma NothingLeft(g: Graph, src: Node, done: set<Node>, known: Labels, dst: Node?)
    requires Searching(g, src, [], done, known) && dst !in done
    ensures forall other :: !Leads(g, src, other, dst)
    ensures g.Keys <= done
  {
    assert g.Keys <= done;
  }

  /** The nodes in the order the search took them, with the weights they had. */
  ghost predicate Sweep(g: Graph, src: Node, taken: seq<Node>, known: Labels) {
    && Distinct(taken)
    && (forall i | 0 <= i < |taken| :: taken[i] in known)
    && (forall i, j | 0 <= i < j < |taken| :: !known[taken[j]].weight.Less(known[taken[i]].weight))
    && forall i | 0 <= i < |taken| && known[taken[i]].weight.Fin? ::
         && Leads(g, src, known[taken[i]].walk, taken[i])
         && Cost(known[taken[i]].walk) == known[taken[i]].weight.value
  }

  ghost function Taken(taken: seq<Node>): (done: set<Node>)
    ensures forall n | n in done :: n in taken
    ensures forall n | n in taken :: n in done
  {
    set n | n in taken
  }

  lemma SweepStarts(g: Graph, src: Node, known: Labels)
    ensures Sweep(g, src, [], known) && Taken([]) == {}
  {
  }

  lemma SweepGrows(g: Graph, src: Node, unvisited: seq<WeightedNode>, done: set<Node>, known: Labels,
                   taken: seq<Node>, v: Node)
    requires Searching(g, src, unvisited, done, known) && IsLightest(done, known, v)
    requires Sweep(g, src, taken, known) && done == Taken(taken)
    ensures Sweep(g, src, taken + [v], known)
  {
    assert Backed(g, src, done, v, known[v]) && Ordered(done, known);
    hide SearchInv;
    hide Searching;
    hide Covers;
    hide Taken;
    forall i | 0 <= i < |taken|
      ensures !known[v].weight.Less(known[taken[i]].weight)
    {
      assert taken[i] in done;
    }
  }

  lemma TakenGrows(taken: seq<Node>, v: Node)
    ensures Taken(taken + [v]) == Taken(taken) + {v}
  {
  }

  lemma SweepCarriesOver(g: Graph, src: Node, taken: seq<Node>, before: Labels, known: Labels)
    requires Sweep(g, src, taken, before)
    requires Agree(Taken(taken), before, known)
    ensures Sweep(g, src, taken, known)
  {
  }

  lemma TakenAreExact(g: Graph, src: Node, unvisited: seq<WeightedNode>, done: set<Node>, known: Labels)
    requires NonNegative(g) && Searching(g, src, unvisited, done, known)
    ensures SearchInv(g, src, done, known) && known.Keys == g.Keys
    ensures forall v, other | v in done && Leads(g, src, other, v) ::
      v in known && known[v].weight.Fin? && known[v].weight.value <= Cost(other)
  {
    forall v, other | v in done && Leads(g, src, other, v)
      ensures v in known && known[v].weight.Fin? && known[v].weight.value <= Cost(other)
    {
      WeightIsDistance(g, src, done, known, v, other);
    }
  }

  /** One iteration: visits the lightest node, which is the next one taken. */
  method TakeLightest(course: seq<Node>, unvisited: seq<WeightedNode>, m: nat,
                      ghost src: Node, ghost taken: seq<Node>, ghost before: Labels)
    returns (rest: seq<WeightedNode>, ghost known: Labels)
    requires NonNegative(GraphOf(course)) && Searching(GraphOf(course), src, unvisited, Taken(taken), before)
    requires m < |unvisited| && IsLightest(Taken(taken), before, unvisited[m].node)
    requires Sweep(GraphOf(course), src, taken, before)
    modifies unvisited
    ensures GraphOf(course) == old(GraphOf(course))
    ensures Searching(GraphOf(course), src, rest, Taken(taken + [unvisited[m].node]), known)
    ensures Sweep(GraphOf(course), src, taken + [unvisited[m].node], known)
    ensures |rest| == |unvisited| - 1
    ensures forall i | 0 <= i < |rest| :: rest[i] == unvisited[if i < m then i else i + 1]
  {
    hide Searching;
    hide GraphOf;
    hide Sweep;
    hide Agree;
    ghost var v := unvisited[m].node;
    SweepGrows(GraphOf(course), src, unvisited, Taken(taken), before, taken, v);
    TakenGrows(taken, v);
    rest, known := Visit(course, unvisited, m, src, Taken(taken), before);
    SweepCarriesOver(GraphOf(course), src, taken + [v], before, known);
  }

  /** Takes nodes until the lightest one is dst, or none is left. */
  method Search(course: seq<Node>, src: Node, dst: Node?)
    returns (unvisited: seq<WeightedNode>, found: WeightedNode?, ghost taken: seq<Node>, ghost known: Labels)
    requires Distinct(course) && NonNegative(GraphOf(course))
    ensures Searching(GraphOf(course), src, unvisited, Taken(taken), known) && Sweep(GraphOf(course), src, taken, known)
    ensures dst !in taken && |taken| <= |course|
    ensures found == null ==> unvisited == []
    ensures found != null ==>
      && found.node == dst && IsLightest(Taken(taken), known, found.node)
      && found.node in known && found.path == Stops(src, known[found.node].walk)
  {
    hide Searching;
    hide GraphOf;
    hide Sweep;
    hide Agree;
    hide IsLightest;
    hide Taken;
    hide NonNegative;
    ghost var g := GraphOf(course);
    unvisited, known := Unvisited(course, src);
    taken := [];
    SweepStarts(g, src, known);
    while unvisited != []
      invariant forall k | 0 <= k < |unvisited| :: fresh(unvisited[k])
      invariant GraphOf(course) == g && Searching(g, src, unvisited, Taken(taken), known)
      invariant dst !in taken && Sweep(g, src, taken, known)
      invariant |taken| + |unvisited| == |course|
      decreases |unvisited|
    {
      var m := FirstLightest(unvisited);
      var cur := unvisited[m];
      LightestEntry(g, src, unvisited, Taken(taken), known, m);
      if cur.node == dst {
        found := cur;
        return;
      }
      unvisited, known := TakeLightest(course, unvisited, m, src, taken, known);
      taken := taken + [cur.node];
    }
    found := null;
  }

  /** Returns a cheapest simple route from src to dst inside the course, or just [src]
      when there is none. The ghost results name the edges behind the returned nodes, and
      the nodes the search took, in order, with the final labels of all nodes: the invariant of the
      search holds of them. The search takes every node that can be reached, as far as it is cheaper to
      reach than dst, and every node at all if dst is none of them. */
  method ClosestPath(course: seq<Node>, src: Node, dst: Node?)
    returns (path: seq<Node>, ghost walk: seq<Edge>, ghost taken: seq<Node>, ghost known: Labels)
    requires Distinct(course) && NonNegative(GraphOf(course))
    ensures path == Stops(src, walk) && Distinct(path)
    ensures forall other | Leads(GraphOf(course), src, other, dst) ::
      Leads(GraphOf(course), src, walk, dst) && Cost(walk) <= Cost(other)
    ensures (forall other :: !Leads(GraphOf(course), src, other, dst)) ==> path == [src]
    ensures Sweep(GraphOf(course), src, taken, known) && |taken| <= |course|
    ensures forall v, other | v in taken && Leads(GraphOf(course), src, other, v) ::
      v in known && known[v].weight.Fin? && known[v].weight.value <= Cost(other)
    ensures SearchInv(GraphOf(course), src, Taken(taken), known)
    ensures dst !in taken && (dst !in course ==> forall n | n in course :: n in taken)
    ensures forall x, other | Leads(GraphOf(course), src, other, x) ::
      x in taken || (Leads(GraphOf(course), src, walk, dst) && Cost(other) >= Cost(walk))
  {
    ghost var g := GraphOf(course);
    assert g.Keys == (set n | n in course) && Stops(src, []) == [src] && Distinct([src]);
    hide *;
    var unvisited, found;
    unvisited, found, taken, known := Search(course, src, dst);
    TakenAreExact(g, src, unvisited, Taken(taken), known);
    if found == null {
      path, walk := [src], [];
      NothingLeft(g, src, Taken(taken), known, dst);
    } else {
      path, walk := found.path, known[found.node].walk;
      LightestIsClosest(g, src, unvisited, Taken(taken), known, found.node);
    }
  }
}
