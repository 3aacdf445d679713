/** The control plane's graph validation: node, edge and entry checks, then a
    three-colour depth-first search for cycles and a marking pass from the entry. */
module GraphValidation {
  import opened SwarmGraph

  datatype Verdict =
    | Accepted
    | EmptyGraph | NodeIncomplete | NodeDuplicate | EntryMissing
    | EdgeSourceMissing | EdgeTargetMissing | SelfEdge | EdgeConditionMissing | EdgeDuplicate
    | Cyclic | Unreachable

  // ---------------------------------------------------------------- what is promised

  /** The complaint about node `i`, given only the nodes before it. */
  ghost function NodeFault(g: Graph, i: nat): Verdict
    requires i < |g.nodes|
  {
    if g.nodes[i].key == "" || g.nodes[i].agentId == "" then NodeIncomplete
    else if exists j :: 0 <= j < i && g.nodes[j].key == g.nodes[i].key then NodeDuplicate
    else Accepted
  }

  /** The key under which an edge is remembered: both ends joined by a NUL. */
  function JoinedKey(e: Edge): string {
    e.from + ['\0'] + e.to
  }

  /** The complaint about edge `i`, given only the edges before it. */
  ghost function EdgeFault(g: Graph, i: nat): Verdict
    requires i < |g.edges|
  {
    var e := g.edges[i];
    if e.from !in NodeKeys(g) then EdgeSourceMissing
    else if e.to !in NodeKeys(g) then EdgeTargetMissing
    else if e.from == e.to then SelfEdge
    else if e.condition.field == "" || e.condition.operator == "" then EdgeConditionMissing
    else if exists j :: 0 <= j < i && JoinedKey(g.edges[j]) == JoinedKey(e) then EdgeDuplicate
    else Accepted
  }

  ghost predicate NodesClean(g: Graph, n: nat)
    requires n <= |g.nodes|
  {
    forall i :: 0 <= i < n ==> NodeFault(g, i) == Accepted
  }

  ghost predicate EdgesClean(g: Graph, n: nat)
    requires n <= |g.edges|
  {
    forall i :: 0 <= i < n ==> EdgeFault(g, i) == Accepted
  }

  ghost predicate FirstNodeFault(g: Graph, v: Verdict) {
    exists i :: 0 <= i < |g.nodes| && NodesClean(g, i) && NodeFault(g, i) == v && v != Accepted
  }

  ghost predicate FirstEdgeFault(g: Graph, v: Verdict) {
    exists i :: 0 <= i < |g.edges| && EdgesClean(g, i) && EdgeFault(g, i) == v && v != Accepted
  }

  ghost predicate AllReachable(g: Graph) {
    forall n :: n in NodeKeys(g) ==> Reachable(g, g.entryNodeKey, n)
  }

  /** The verdict a graph deserves: the first complaint in checking order, if any. */
  ghost predicate Deserves(g: Graph, v: Verdict) {
    if g.nodes == [] then v == EmptyGraph
    else if !NodesClean(g, |g.nodes|) then FirstNodeFault(g, v)
    else if g.entryNodeKey !in NodeKeys(g) then v == EntryMissing
    else if !EdgesClean(g, |g.edges|) then FirstEdgeFault(g, v)
    else if !Acyclic(g) then v == Cyclic
    else if !AllReachable(g) then v == Unreachable
    else v == Accepted
  }

  ghost predicate NodesSound(g: Graph) {
    && g.nodes != []
    && (forall i :: 0 <= i < |g.nodes| ==> g.nodes[i].key != "" && g.nodes[i].agentId != "")
    && (forall i, j :: 0 <= i < j < |g.nodes| ==> g.nodes[i].key != g.nodes[j].key)
  }

  ghost predicate EdgeSound(g: Graph, e: Edge) {
    && e.from in NodeKeys(g) && e.to in NodeKeys(g) && e.from != e.to
    && e.condition.field != "" && e.condition.operator != ""
  }

  /** What a swarm graph is meant to be: edges are told apart as pairs of nodes. */
  ghost predicate WellFormed(g: Graph) {
    && NodesSound(g)
    && g.entryNodeKey in NodeKeys(g)
    && (forall e :: e in g.edges ==> EdgeSound(g, e))
    && (forall i, j :: 0 <= i < j < |g.edges| ==>
          (g.edges[i].from, g.edges[i].to) != (g.edges[j].from, g.edges[j].to))
    && Acyclic(g)
    && AllReachable(g)
  }

  /** Two different pairs of nodes whose joined keys coincide. */
  ghost predicate JoinedKeysCollide(g: Graph) {
    exists i, j ::
      && 0 <= i < j < |g.edges|
      && JoinedKey(g.edges[i]) == JoinedKey(g.edges[j])
      && (g.edges[i].from, g.edges[i].to) != (g.edges[j].from, g.edges[j].to)
  }

  /** A graph is accepted exactly when it is well formed and no two of its edges are
      confused by the joined key. */
  lemma AcceptedIffWellFormed(g: Graph)
    ensures Deserves(g, Accepted) <==> WellFormed(g) && !JoinedKeysCollide(g)
  {
    NodesCleanMeaning(g);
    EdgesCleanMeaning(g);
  }

  /** What is wrong with node `i`, none of those before being wrong. */
  ghost predicate NodeWrong(g: Graph, i: nat, v: Verdict) {
    && i < |g.nodes|
    && var n := g.nodes[i];
    match v
    case NodeIncomplete => n.key == "" || n.agentId == ""
    case NodeDuplicate => n.key != "" && n.agentId != "" && exists j :: 0 <= j < i && g.nodes[j].key == n.key
    case _ => false
  }

  /** What is wrong with edge `i`, the first thing that is. */
  ghost predicate EdgeWrong(g: Graph, i: nat, v: Verdict) {
    && i < |g.edges|
    && var e := g.edges[i];
    var fromKnown := exists n :: n in g.nodes && n.key == e.from;
    var toKnown := exists n :: n in g.nodes && n.key == e.to;
    match v
    case EdgeSourceMissing => !fromKnown
    case EdgeTargetMissing => fromKnown && !toKnown
    case SelfEdge => fromKnown && e.from == e.to
    case EdgeConditionMissing =>
      fromKnown && toKnown && e.from != e.to && (e.condition.field == "" || e.condition.operator == "")
    case EdgeDuplicate =>
      EdgeSound(g, e) && exists j :: 0 <= j < i && g.edges[j].from + "\0" + g.edges[j].to == e.from + "\0" + e.to
    case _ => false
  }

  /** A refusal names what is wrong with the first node that is wrong, or failing that with the
      first edge. */
  lemma RefusalMeans(g: Graph, v: Verdict)
    requires Deserves(g, v)
    ensures v == NodeIncomplete || v == NodeDuplicate ==>
              exists i: nat :: NodeWrong(g, i, v) && forall j: nat, w :: j < i ==> !NodeWrong(g, j, w)
    ensures v == EdgeSourceMissing || v == EdgeTargetMissing || v == SelfEdge || v == EdgeConditionMissing
            || v == EdgeDuplicate ==>
              && NodesSound(g) && g.entryNodeKey in NodeKeys(g)
              && exists i: nat :: EdgeWrong(g, i, v) && forall j: nat, w :: j < i ==> !EdgeWrong(g, j, w)
    ensures v == EmptyGraph <==> g.nodes == []
    ensures v == EntryMissing ==> NodesSound(g) && g.entryNodeKey !in NodeKeys(g)
    ensures v == Cyclic ==> !Acyclic(g)
    ensures v == Unreachable ==> Acyclic(g) && !AllReachable(g)
  {
    NodesCleanMeaning(g);
    if v == NodeIncomplete || v == NodeDuplicate {
      assert FirstNodeFault(g, v);
      var i :| 0 <= i < |g.nodes| && NodesClean(g, i) && NodeFault(g, i) == v;
      assert NodeWrong(g, i, v);
      forall j: nat, w | j < i
        ensures !NodeWrong(g, j, w)
      {
        assert NodeFault(g, j) == Accepted;
      }
    }
    if v == EdgeSourceMissing || v == EdgeTargetMissing || v == SelfEdge || v == EdgeConditionMissing
      || v == EdgeDuplicate {
      assert NodesClean(g, |g.nodes|) && FirstEdgeFault(g, v) by { hide EdgeFault; }
      FirstEdgeWrong(g, v);
    }
    hide NodeWrong, EdgeWrong, NodesSound, Acyclic, AllReachable;
  }

  lemma FirstEdgeWrong(g: Graph, v: Verdict)
    requires FirstEdgeFault(g, v)
    ensures exists i: nat :: EdgeWrong(g, i, v) && forall j: nat, w :: j < i ==> !EdgeWrong(g, j, w)
  {
    hide EdgeWrong, EdgeFault;
    var i :| 0 <= i < |g.edges| && EdgesClean(g, i) && EdgeFault(g, i) == v && v != Accepted;
    EdgeWrongIff(g, i, v);
    forall j: nat, w | j < i
      ensures !EdgeWrong(g, j, w)
    {
      EdgeWrongIff(g, j, w);
      assert EdgeFault(g, j) == Accepted;
    }
  }

  lemma EdgeWrongIff(g: Graph, i: nat, w: Verdict)
    requires i < |g.edges|
    ensures EdgeWrong(g, i, w) <==> EdgeFault(g, i) == w && w != Accepted
  {
  }

  lemma NodesCleanMeaning(g: Graph)
    ensures g.nodes != [] && NodesClean(g, |g.nodes|) <==> NodesSound(g)
  {
    if g.nodes != [] && NodesClean(g, |g.nodes|) {
      forall i | 0 <= i < |g.nodes|
        ensures g.nodes[i].key != "" && g.nodes[i].agentId != ""
        ensures forall j :: 0 <= j < i ==> g.nodes[j].key != g.nodes[i].key
      {
        assert NodeFault(g, i) == Accepted;
      }
    }
  }

  lemma EdgesCleanMeaning(g: Graph)
    ensures EdgesClean(g, |g.edges|) <==>
            && (forall e :: e in g.edges ==> EdgeSound(g, e))
            && (forall i, j :: 0 <= i < j < |g.edges| ==>
                  JoinedKey(g.edges[i]) != JoinedKey(g.edges[j]))
  {
    if EdgesClean(g, |g.edges|) {
      forall i | 0 <= i < |g.edges|
        ensures EdgeSound(g, g.edges[i])
        ensures forall j :: 0 <= j < i ==> JoinedKey(g.edges[j]) != JoinedKey(g.edges[i])
      {
        assert EdgeFault(g, i) == Accepted;
      }
    } else {
      var i :| 0 <= i < |g.edges| && EdgeFault(g, i) != Accepted;
      assert g.edges[i] in g.edges;
    }
  }

  // ---------------------------------------------------------------- the joined edge key

  /** Without a NUL in the first key, the joined key gives both ends back. */
  lemma JoinedKeyInjective(a: Edge, b: Edge)
    requires '\0' !in a.from && '\0' !in b.from
    requires JoinedKey(a) == JoinedKey(b)
    ensures a.from == b.from && a.to == b.to
  {
    var k := JoinedKey(a);
    assert k[|a.from|] == '\0' && k[|b.from|] == '\0';
    assert forall i :: 0 <= i < |a.from| ==> k[i] == a.from[i] && a.from[i] in a.from;
    assert forall i :: 0 <= i < |b.from| ==> k[i] == b.from[i] && b.from[i] in b.from;
    assert a.from == k[..|a.from|] && b.from == k[..|b.from|];
    assert a.to == k[|a.from| + 1..] && b.to == k[|b.from| + 1..];
  }

  /** With NUL-free node keys, acceptance is exactly well-formedness. */
  lemma NulFreeAcceptance(g: Graph)
    requires forall n :: n in g.nodes ==> '\0' !in n.key
    ensures Deserves(g, Accepted) <==> WellFormed(g)
  {
    AcceptedIffWellFormed(g);
    if WellFormed(g) && JoinedKeysCollide(g) {
      var i, j :| && 0 <= i < j < |g.edges|
                  && JoinedKey(g.edges[i]) == JoinedKey(g.edges[j])
                  && (g.edges[i].from, g.edges[i].to) != (g.edges[j].from, g.edges[j].to);
      assert EdgeSound(g, g.edges[i]) && EdgeSound(g, g.edges[j]);
      JoinedKeyInjective(g.edges[i], g.edges[j]);
    }
  }

  const LINK := Condition("intent", "exists", "")

  /** Four nodes, two of them with a NUL in their key, and the edges
      a -> (b NUL c), (a NUL b) -> c and a -> (a NUL b). */
  const CONFUSED := Graph("a",
    [Node("a", "agent"), Node("b\0c", "agent"), Node("a\0b", "agent"), Node("c", "agent")],
    [Edge("a", "b\0c", 1, LINK), Edge("a\0b", "c", 1, LINK), Edge("a", "a\0b", 1, LINK)])

  lemma ConfusedKeys()
    ensures Distinct(["a", "b\0c", "a\0b", "c"])
    ensures NodeKeys(CONFUSED) == {"a", "b\0c", "a\0b", "c"}
  {
    assert "a"[0] != "c"[0] && "b\0c"[0] != "a\0b"[0] && |"a"| == |"c"| == 1 && |"b\0c"| == |"a\0b"| == 3;
    var n := CONFUSED.nodes;
    assert n[0] in n && n[1] in n && n[2] in n && n[3] in n;
  }

  lemma ConfusedEdgesMeaning(a: string, b: string)
    ensures HasEdge(CONFUSED, a, b) <==>
            (a, b) in {("a", "b\0c"), ("a\0b", "c"), ("a", "a\0b")}
  {
    var e := CONFUSED.edges;
    assert e[0] in e && e[1] in e && e[2] in e;
  }

  lemma ConfusedIsAcyclic()
    ensures Acyclic(CONFUSED)
  {
    ConfusedKeys();
    var order := ["c", "a\0b", "b\0c", "a"];
    forall i, b | 0 <= i < |order| && HasEdge(CONFUSED, order[i], b)
      ensures b in order[..i]
    {
      ConfusedEdgesMeaning(order[i], b);
      assert order[..1] == ["c"] && order[..3] == ["c", "a\0b", "b\0c"];
    }
    assert order[0] in order && order[1] in order && order[2] in order && order[3] in order;
    assert EdgesKnown(CONFUSED) by {
      forall e | e in CONFUSED.edges
        ensures e.from in NodeKeys(CONFUSED) && e.to in NodeKeys(CONFUSED)
      {
        ConfusedEdgesMeaning(e.from, e.to);
      }
    }
    TopologicalIsAcyclic(CONFUSED, order);
  }

  lemma ConfusedIsReachable()
    ensures AllReachable(CONFUSED)
  {
    ConfusedKeys();
    ConfusedEdgesMeaning("a", "b\0c");
    ConfusedEdgesMeaning("a", "a\0b");
    ConfusedEdgesMeaning("a\0b", "c");
    ReachableSelf(CONFUSED, "a");
    ReachableStep(CONFUSED, "a", "a", "b\0c");
    ReachableStep(CONFUSED, "a", "a", "a\0b");
    ReachableStep(CONFUSED, "a", "a\0b", "c");
  }

  lemma ConfusedEdgesCollide()
    ensures EdgesClean(CONFUSED, 1) && EdgeFault(CONFUSED, 1) == EdgeDuplicate
    ensures forall e :: e in CONFUSED.edges ==> EdgeSound(CONFUSED, e)
  {
    ConfusedKeys();
    assert JoinedKey(CONFUSED.edges[0]) == JoinedKey(CONFUSED.edges[1]) == "a\0b\0c";
    assert EdgeFault(CONFUSED, 0) == Accepted;
  }

  lemma ConfusedNodesSound()
    ensures NodesSound(CONFUSED)
  {
    ConfusedKeys();
    var keys := ["a", "b\0c", "a\0b", "c"];
    var n := CONFUSED.nodes;
    assert n[0].key == keys[0] && n[1].key == keys[1] && n[2].key == keys[2] && n[3].key == keys[3];
    forall i, j | 0 <= i < j < |n|
      ensures n[i].key != n[j].key
    {
      assert n[i].key == keys[i] && n[j].key == keys[j];
    }
  }

  /** A NUL inside node keys makes two different edges look repeated: a well-formed
      graph is turned away. */
  lemma NulKeysRejectWellFormedGraph()
    ensures WellFormed(CONFUSED) && Deserves(CONFUSED, EdgeDuplicate)
  {
    ConfusedKeys();
    ConfusedNodesSound();
    ConfusedIsAcyclic();
    ConfusedIsReachable();
    ConfusedEdgesCollide();
    NodesCleanMeaning(CONFUSED);
    ConfusedPairsDiffer();
    hide Acyclic, AllReachable, NodesSound, NodesClean, EdgeSound, NodeKeys, EdgesClean, EdgeFault;
    RefusedFor(CONFUSED, 1);
  }

  lemma ConfusedPairsDiffer()
    ensures var e := CONFUSED.edges; forall i, j :: 0 <= i < j < |e| ==> (e[i].from, e[i].to) != (e[j].from, e[j].to)
  {
    assert |"c"| == 1 && |"b\0c"| == |"a\0b"| == 3;
  }

  /** The first faulty edge decides the verdict. */
  lemma RefusedFor(g: Graph, i: nat)
    requires g.nodes != [] && NodesClean(g, |g.nodes|) && g.entryNodeKey in NodeKeys(g)
    requires i < |g.edges| && EdgesClean(g, i) && EdgeFault(g, i) != Accepted
    ensures Deserves(g, EdgeFault(g, i))
  {
    hide EdgeFault, NodesClean, Acyclic;
  }

  // ---------------------------------------------------------------- the validator

  function On(marks: map<string, bool>): set<string> {
    set k | k in marks && marks[k]
  }

  lemma TurnOn(marks: map<string, bool>, key: string)
    ensures On(marks[key := true]) == On(marks) + {key}
  {
  }

  lemma Marked(marks: map<string, bool>, key: string)
    ensures key in On(marks) <==> key in marks && marks[key]
  {
  }

  lemma TurnOff(marks: map<string, bool>, key: string)
    ensures On(marks[key := false]) == On(marks) - {key}
  {
  }

  function Successors(adjacency: map<string, seq<string>>, node: string): seq<string> {
    if node in adjacency then adjacency[node] else []
  }

  ghost predicate Lists(adjacency: map<string, seq<string>>, edges: seq<Edge>) {
    forall a, b :: b in Successors(adjacency, a) <==> EdgeIn(edges, a, b)
  }

  lemma ListsOneMore(adjacency: map<string, seq<string>>, edges: seq<Edge>, e: Edge)
    requires Lists(adjacency, edges)
    ensures Lists(adjacency[e.from := Successors(adjacency, e.from) + [e.to]], edges + [e])
  {
    var longer := adjacency[e.from := Successors(adjacency, e.from) + [e.to]];
    forall a, b
      ensures b in Successors(longer, a) <==> EdgeIn(edges + [e], a, b)
    {
      if EdgeIn(edges, a, b) {
        var f :| f in edges && f.from == a && f.to == b;
        assert f in edges + [e];
      }
      assert e in edges + [e];
      assert b in Successors(adjacency, a) <==> EdgeIn(edges, a, b);
    }
  }

  lemma SubsetOfSameSize<T>(s: set<T>, t: set<T>)
    requires s <= t
    ensures |s| == |t| <==> s == t
  {
    if s != t {
      assert t == s + (t - s);
      assert t - s != {};
    }
  }

  /** Everything marked is a node that can be reached from the root. */
  ghost predicate MarksSound(g: Graph, root: string, marks: map<string, bool>) {
    && marks.Keys <= NodeKeys(g)
    && forall n :: n in marks ==> marks[n] && Reachable(g, root, n)
  }

  /** Between two moments the marks only grow, and new marks bring their successors along. */
  ghost predicate MarksGrow(g: Graph, before: set<string>, after: set<string>) {
    && before <= after
    && forall a, b :: a in after - before && HasEdge(g, a, b) ==> b in after
  }

  lemma MarksGrowOn(g: Graph, first: set<string>, second: set<string>, third: set<string>)
    requires MarksGrow(g, first, second) && MarksGrow(g, second, third)
    ensures MarksGrow(g, first, third)
  {
  }

  /** A new mark whose successors are marked as well. */
  lemma MarksGrowFrom(g: Graph, before: set<string>, node: string, after: set<string>)
    requires MarksGrow(g, before + {node}, after) && forall b :: HasEdge(g, node, b) ==> b in after
    ensures MarksGrow(g, before, after)
  {
  }

  /** The maps that validation fills in while it runs. */
  class GraphValidator {
    const graph: Graph
    var nodes: set<string>
    var adjacency: map<string, seq<string>>
    var visiting: map<string, bool>
    var visited: map<string, bool>
    var reachable: map<string, bool>

    constructor (graph: Graph)
      ensures this.graph == graph
      ensures nodes == {} && adjacency == map[]
      ensures visiting == map[] && visited == map[] && reachable == map[]
    {
      this.graph := graph;
      nodes, adjacency := {}, map[];
      visiting, visited, reachable := map[], map[], map[];
    }

    method CheckNodes() returns (v: Verdict)
      requires nodes == {}
      modifies this`nodes
      ensures v == Accepted <==> NodesClean(graph, |graph.nodes|)
      ensures v != Accepted ==> FirstNodeFault(graph, v)
      ensures v == Accepted ==> nodes == NodeKeys(graph)
    {
      for i := 0 to |graph.nodes|
        invariant NodesClean(graph, i)
        invariant nodes == set n | n in graph.nodes[..i] :: n.key
      {
        var node := graph.nodes[i];
        assert graph.nodes[..i + 1] == graph.nodes[..i] + [node];
        if node.key == "" || node.agentId == "" {
          assert NodeFault(graph, i) == NodeIncomplete;
          return NodeIncomplete;
        }
        if node.key in nodes {
          assert NodeFault(graph, i) == NodeDuplicate;
          return NodeDuplicate;
        }
        nodes := nodes + {node.key};
      }
      assert graph.nodes[..|graph.nodes|] == graph.nodes;
      return Accepted;
    }

    method CheckEdges() returns (v: Verdict)
      requires nodes == NodeKeys(graph) && adjacency == map[]
      modifies this`adjacency
      ensures v == Accepted <==> EdgesClean(graph, |graph.edges|)
      ensures v != Accepted ==> FirstEdgeFault(graph, v)
      ensures v == Accepted ==> Lists(adjacency, graph.edges)
    {
      var edges: map<string, bool> := map[];
      for i := 0 to |graph.edges|
        invariant EdgesClean(graph, i)
        invariant On(edges) == set e | e in graph.edges[..i] :: JoinedKey(e)
        invariant Lists(adjacency, graph.edges[..i])
      {
        var edge := graph.edges[i];
        if edge.from !in nodes {
          assert EdgeFault(graph, i) == EdgeSourceMissing;
          return EdgeSourceMissing;
        }
        if edge.to !in nodes {
          assert EdgeFault(graph, i) == EdgeTargetMissing;
          return EdgeTargetMissing;
        }
        if edge.from == edge.to {
          assert EdgeFault(graph, i) == SelfEdge;
          return SelfEdge;
        }
        if edge.condition.field == "" || edge.condition.operator == "" {
          assert EdgeFault(graph, i) == EdgeConditionMissing;
          return EdgeConditionMissing;
        }
        var edgeKey := JoinedKey(edge);
        if edgeKey in edges && edges[edgeKey] {
          assert edgeKey in On(edges);
          ghost var e :| e in graph.edges[..i] && JoinedKey(e) == edgeKey;
          assert EdgeFault(graph, i) == EdgeDuplicate;
          return EdgeDuplicate;
        }
        assert edgeKey !in On(edges);
        assert EdgeFault(graph, i) == Accepted by {
          forall j | 0 <= j < i
            ensures JoinedKey(graph.edges[j]) != edgeKey
          {
            assert graph.edges[j] in graph.edges[..i];
          }
        }
        TurnOn(edges, edgeKey);
        ListsOneMore(adjacency, graph.edges[..i], edge);
        assert graph.edges[..i + 1] == graph.edges[..i] + [edge];
        edges := edges[edgeKey := true];
        adjacency := adjacency[edge.from := Successors(adjacency, edge.from) + [edge.to]];
      }
      assert graph.edges[..|graph.edges|] == graph.edges;
      return Accepted;
    }

    /** Depth-first visit. `stack` is the chain of callers, `order` what is finished. */
    method Visit(node: string, ghost stack: seq<string>, ghost order: seq<string>)
      returns (ok: bool, ghost finished: seq<string>)
      requires Lists(adjacency, graph.edges) && EdgesKnown(graph) && node in NodeKeys(graph)
      requires Searching(graph, On(visiting), On(visited), stack, order)
      requires MayEnter(graph, stack, node)
      modifies this`visiting, this`visited
      ensures !ok ==> !Acyclic(graph)
      ensures ok ==> Searching(graph, On(visiting), On(visited), stack, finished)
      ensures ok ==> order <= finished && node in finished
      decreases NodeKeys(graph) - Elements(stack)
    {
      hide IsPath, Topological, Acyclic, On;
      finished := order;
      Marked(visiting, node);
      Marked(visited, node);
      if node in visiting && visiting[node] {
        BackEdgeIsCycle(graph, stack, node);
        return false, finished;
      }
      if node in visited && visited[node] {
        return true, finished;
      }
      EnterNode(graph, On(visiting), On(visited), stack, order, node);
      TurnOn(visiting, node);
      visiting := visiting[node := true];
      ghost var pushed := stack + [node];
      var next := Successors(adjacency, node);
      for i := 0 to |next|
        invariant Searching(graph, On(visiting), On(visited), pushed, finished)
        invariant order <= finished
        invariant forall j :: 0 <= j < i ==> next[j] in finished
      {
        assert next[i] in Successors(adjacency, node);
        assert HasEdge(graph, node, next[i]);
        ok, finished := Visit(next[i], pushed, finished);
        if !ok {
          return false, finished;
        }
      }
      assert forall b :: HasEdge(graph, node, b) ==> b in next;
      LeaveNode(graph, On(visiting), On(visited), stack, finished, node);
      TurnOff(visiting, node);
      TurnOn(visited, node);
      visiting := visiting[node := false];
      visited := visited[node := true];
      finished := finished + [node];
      ok := true;
    }

    method DetectCycle() returns (ok: bool)
      requires Lists(adjacency, graph.edges) && EdgesKnown(graph) && nodes == NodeKeys(graph)
      requires visiting == map[] && visited == map[]
      modifies this`visiting, this`visited
      ensures ok <==> Acyclic(graph)
    {
      var pending := nodes;
      ghost var order: seq<string> := [];
      while pending != {}
        invariant pending <= nodes
        invariant Searching(graph, On(visiting), On(visited), [], order)
        invariant nodes - pending <= Elements(order)
        decreases pending
      {
        var key :| key in pending;
        ghost var before := order;
        ok, order := Visit(key, [], order);
        if !ok {
          return false;
        }
        assert Elements(before) <= Elements(order);
        pending := pending - {key};
      }
      TopologicalIsAcyclic(graph, order);
      return true;
    }

    /** Marks a node and everything behind it; `root` is where the marking began. */
    method MarkReachable(node: string, ghost root: string)
      requires Lists(adjacency, graph.edges) && EdgesKnown(graph) && node in NodeKeys(graph)
      requires MarksSound(graph, root, reachable) && Reachable(graph, root, node)
      modifies this`reachable
      ensures MarksSound(graph, root, reachable) && node in reachable
      ensures MarksGrow(graph, old(reachable).Keys, reachable.Keys)
      decreases NodeKeys(graph) - reachable.Keys
    {
      if node in reachable && reachable[node] {
        return;
      }
      ghost var start := reachable.Keys + {node};
      reachable := reachable[node := true];
      var next := Successors(adjacency, node);
      for i := 0 to |next|
        invariant MarksSound(graph, root, reachable)
        invariant MarksGrow(graph, start, reachable.Keys)
        invariant forall j :: 0 <= j < i ==> next[j] in reachable
      {
        assert next[i] in Successors(adjacency, node);
        assert HasEdge(graph, node, next[i]);
        ReachableStep(graph, root, node, next[i]);
        ghost var before := reachable.Keys;
        MarkReachable(next[i], root);
        MarksGrowOn(graph, start, before, reachable.Keys);
      }
      forall b | HasEdge(graph, node, b)
        ensures b in reachable.Keys
      {
        assert b in Successors(adjacency, node);
      }
      hide MarksGrow, MarksSound, HasEdge, Reachable;
      MarksGrowFrom(graph, old(reachable).Keys, node, reachable.Keys);
    }

    method Validate() returns (v: Verdict)
      requires nodes == {} && adjacency == map[]
      requires visiting == map[] && visited == map[] && reachable == map[]
      modifies this
      ensures Deserves(graph, v)
    {
      if |graph.nodes| == 0 {
        return EmptyGraph;
      }
      v := CheckNodes();
      if v != Accepted {
        return v;
      }
      if graph.entryNodeKey !in nodes {
        return EntryMissing;
      }
      v := CheckEdges();
      if v != Accepted {
        return v;
      }
      EdgesCleanMeaning(graph);
      assert EdgesKnown(graph) by {
        forall e | e in graph.edges
          ensures e.from in NodeKeys(graph) && e.to in NodeKeys(graph)
        {
          assert EdgeSound(graph, e);
        }
      }
      var acyclic := DetectCycle();
      if !acyclic {
        return Cyclic;
      }
      ReachableSelf(graph, graph.entryNodeKey);
      MarkReachable(graph.entryNodeKey, graph.entryNodeKey);
      ClosureIsReachable(graph, graph.entryNodeKey, reachable.Keys);
      SubsetOfSameSize(reachable.Keys, nodes);
      if |reachable| != |nodes| {
        return Unreachable;
      }
      return Accepted;
    }
  }
}
