/** Agent swarms as directed graphs: the document shape, paths, and the notions of
    "acyclic" and "reachable" that graph validation is meant to decide. */
module SwarmGraph {

  datatype Condition = Condition(field: string, operator: string, value: string)

  datatype Node = Node(key: string, agentId: string)

  datatype Edge = Edge(from: string, to: string, priority: int, condition: Condition)

  datatype Graph = Graph(entryNodeKey: string, nodes: seq<Node>, edges: seq<Edge>)

  function NodeKeys(g: Graph): set<string> {
    set n | n in g.nodes :: n.key
  }

  ghost predicate EdgeIn(edges: seq<Edge>, a: string, b: string) {
    exists e :: e in edges && e.from == a && e.to == b
  }

  ghost predicate HasEdge(g: Graph, a: string, b: string) {
    EdgeIn(g.edges, a, b)
  }

  ghost predicate IsPath(g: Graph, p: seq<string>) {
    && p != []
    && forall i :: 0 <= i < |p| - 1 ==> HasEdge(g, p[i], p[i + 1])
  }

  lemma PathTail(g: Graph, p: seq<string>)
    requires IsPath(g, p) && |p| >= 2
    ensures IsPath(g, p[1..])
  {
    forall k | 0 <= k < |p| - 2
      ensures HasEdge(g, p[1..][k], p[1..][k + 1])
    {
      assert p[1..][k] == p[k + 1] && p[1..][k + 1] == p[k + 2];
    }
  }

  ghost predicate Joins(g: Graph, p: seq<string>, a: string, b: string) {
    IsPath(g, p) && p[0] == a && p[|p| - 1] == b
  }

  ghost predicate Reachable(g: Graph, a: string, b: string) {
    exists p :: Joins(g, p, a, b)
  }

  /** No path of at least one edge comes back to where it started. */
  ghost predicate Acyclic(g: Graph) {
    forall p :: IsPath(g, p) && |p| >= 2 ==> p[0] != p[|p| - 1]
  }

  ghost predicate Distinct<T>(s: seq<T>) {
    forall i, j :: 0 <= i < j < |s| ==> s[i] != s[j]
  }

  ghost predicate EdgesKnown(g: Graph) {
    forall e :: e in g.edges ==> e.from in NodeKeys(g) && e.to in NodeKeys(g)
  }

  function Elements<T>(s: seq<T>): set<T> {
    set x | x in s
  }

  // ---------------------------------------------------------------- finishing orders

  /** A depth-first finishing order: every successor of a listed node is listed before it. */
  ghost predicate Topological(g: Graph, order: seq<string>) {
    && Distinct(order)
    && forall i, b :: 0 <= i < |order| && HasEdge(g, order[i], b) ==> b in order[..i]
  }

  lemma {:induction false} PathDescends(g: Graph, order: seq<string>, p: seq<string>, i: nat)
    requires Topological(g, order) && i < |order|
    requires IsPath(g, p) && |p| >= 2 && p[0] == order[i]
    ensures p[|p| - 1] in order[..i]
  {
    assert HasEdge(g, p[0], p[1]);
    var j :| 0 <= j < i && order[j] == p[1];
    if |p| > 2 {
      PathTail(g, p);
      PathDescends(g, order, p[1..], j);
      assert order[..j] <= order[..i];
    }
  }

  /** A finishing order that covers every edge source rules out cycles. */
  lemma TopologicalIsAcyclic(g: Graph, order: seq<string>)
    requires Topological(g, order) && EdgesKnown(g)
    requires NodeKeys(g) <= Elements(order)
    ensures Acyclic(g)
  {
    forall p | IsPath(g, p) && |p| >= 2
      ensures p[0] != p[|p| - 1]
    {
      assert HasEdge(g, p[0], p[1]);
      assert p[0] in Elements(order);
      var i :| 0 <= i < |order| && order[i] == p[0];
      PathDescends(g, order, p, i);
    }
  }

  // ---------------------------------------------------------------- search state

  /** What holds between two steps of the three-colour search: `stack` is the path of
      nodes being visited, `order` lists the finished nodes, and the two never meet. */
  ghost predicate Searching(g: Graph, visiting: set<string>, visited: set<string>,
                            stack: seq<string>, order: seq<string>)
  {
    && visiting == Elements(stack)
    && visited == Elements(order)
    && visiting !! visited
    && (stack == [] || IsPath(g, stack))
    && Topological(g, order)
  }

  ghost predicate MayEnter(g: Graph, stack: seq<string>, node: string) {
    stack == [] || HasEdge(g, stack[|stack| - 1], node)
  }

  /** Meeting a node that is still being visited closes a cycle. */
  lemma BackEdgeIsCycle(g: Graph, stack: seq<string>, node: string)
    requires stack != [] && IsPath(g, stack)
    requires MayEnter(g, stack, node) && node in stack
    ensures !Acyclic(g)
  {
    var k :| 0 <= k < |stack| && stack[k] == node;
    var p := stack[k..] + [node];
    forall i | 0 <= i < |p| - 1
      ensures HasEdge(g, p[i], p[i + 1])
    {
      if i < |p| - 2 {
        assert p[i] == stack[k + i] && p[i + 1] == stack[k + i + 1];
      }
    }
    assert IsPath(g, p) && |p| >= 2 && p[0] == p[|p| - 1];
  }

  /** A node whose successors are all finished can be finished next. */
  lemma FinishNode(g: Graph, order: seq<string>, node: string)
    requires Topological(g, order) && node !in order
    requires forall b :: HasEdge(g, node, b) ==> b in order
    ensures Topological(g, order + [node])
  {
    var longer := order + [node];
    forall i, b | 0 <= i < |longer| && HasEdge(g, longer[i], b)
      ensures b in longer[..i]
    {
      if i < |order| {
        assert longer[..i] == order[..i];
      } else {
        assert longer[..i] == order;
      }
    }
  }

  /** Colouring an untouched node as being visited pushes it on the stack. */
  lemma EnterNode(g: Graph, visiting: set<string>, visited: set<string>,
                  stack: seq<string>, order: seq<string>, node: string)
    requires Searching(g, visiting, visited, stack, order) && MayEnter(g, stack, node)
    requires node !in visiting && node !in visited
    ensures Searching(g, visiting + {node}, visited, stack + [node], order)
    ensures Elements(stack) < Elements(stack + [node])
  {
    var pushed := stack + [node];
    forall i | 0 <= i < |pushed| - 1
      ensures HasEdge(g, pushed[i], pushed[i + 1])
    {
      if i < |stack| - 1 {
        assert pushed[i] == stack[i] && pushed[i + 1] == stack[i + 1];
      }
    }
    assert IsPath(g, pushed);
    assert Elements(pushed) == Elements(stack) + {node};
  }

  /** Finishing the node on top of the stack pops it and lists it. */
  lemma LeaveNode(g: Graph, visiting: set<string>, visited: set<string>,
                  stack: seq<string>, order: seq<string>, node: string)
    requires Searching(g, visiting, visited, stack + [node], order)
    requires node !in stack && (stack == [] || IsPath(g, stack))
    requires forall b :: HasEdge(g, node, b) ==> b in order
    ensures Searching(g, visiting - {node}, visited + {node}, stack, order + [node])
  {
    var pushed := stack + [node];
    assert pushed[|stack|] == node;
    assert node in visiting;
    assert Elements(pushed) == Elements(stack) + {node};
    assert Elements(order + [node]) == Elements(order) + {node};
    FinishNode(g, order, node);
  }

  // ---------------------------------------------------------------- reachability

  lemma ReachableStep(g: Graph, a: string, b: string, c: string)
    requires Reachable(g, a, b) && HasEdge(g, b, c)
    ensures Reachable(g, a, c)
  {
    var p :| Joins(g, p, a, b);
    var q := p + [c];
    forall i | 0 <= i < |q| - 1
      ensures HasEdge(g, q[i], q[i + 1])
    {
      if i < |p| - 1 {
        assert q[i] == p[i] && q[i + 1] == p[i + 1];
      }
    }
    assert Joins(g, q, a, c);
  }

  lemma ReachableSelf(g: Graph, a: string)
    ensures Reachable(g, a, a)
  {
    assert Joins(g, [a], a, a);
  }

  ghost predicate ClosedUnderEdges(g: Graph, s: set<string>) {
    forall a, b :: a in s && HasEdge(g, a, b) ==> b in s
  }

  /** A path cannot leave a set that is closed under edges. */
  lemma {:induction false} PathStaysInside(g: Graph, s: set<string>, p: seq<string>)
    requires ClosedUnderEdges(g, s)
    requires IsPath(g, p) && p[0] in s
    ensures p[|p| - 1] in s
  {
    if |p| > 1 {
      assert HasEdge(g, p[0], p[1]);
      PathTail(g, p);
      PathStaysInside(g, s, p[1..]);
    }
  }

  /** The marked set is exactly the reachable set once it is closed and sound. */
  lemma ClosureIsReachable(g: Graph, a: string, s: set<string>)
    requires a in s && ClosedUnderEdges(g, s)
    requires forall n :: n in s ==> Reachable(g, a, n)
    ensures forall n :: n in s <==> Reachable(g, a, n)
  {
    forall n | Reachable(g, a, n)
      ensures n in s
    {
      var p :| Joins(g, p, a, n);
      PathStaysInside(g, s, p);
    }
  }

  // ---------------------------------------------------------------- paths in a DAG

  /** In an acyclic graph a path never repeats a node. */
  lemma AcyclicPathDistinct(g: Graph, p: seq<string>)
    requires Acyclic(g) && IsPath(g, p)
    ensures Distinct(p)
  {
    forall i, j | 0 <= i < j < |p|
      ensures p[i] != p[j]
    {
      var q := p[i..j + 1];
      forall k | 0 <= k < |q| - 1
        ensures HasEdge(g, q[k], q[k + 1])
      {
        assert q[k] == p[i + k] && q[k + 1] == p[i + k + 1];
      }
      assert IsPath(g, q) && |q| >= 2;
      assert q[0] == p[i] && q[|q| - 1] == p[j];
    }
  }

  lemma {:induction false} DistinctFits(p: seq<string>, s: set<string>)
    requires Distinct(p) && forall x :: x in p ==> x in s
    ensures |p| <= |s|
  {
    if p != [] {
      var last := p[|p| - 1];
      DistinctFits(p[..|p| - 1], s - {last});
    }
  }

  lemma {:induction false} NodeKeysBound(nodes: seq<Node>)
    ensures |(set n | n in nodes :: n.key)| <= |nodes|
  {
    if nodes != [] {
      NodeKeysBound(nodes[1..]);
      var rest := set n | n in nodes[1..] :: n.key;
      assert (set n | n in nodes :: n.key) == rest + {nodes[0].key};
    }
  }

  /** A path of an acyclic graph inside its own nodes has at most |nodes| entries. */
  lemma AcyclicPathBound(g: Graph, p: seq<string>)
    requires Acyclic(g) && IsPath(g, p)
    requires forall x :: x in p ==> x in NodeKeys(g)
    ensures |p| <= |g.nodes|
  {
    AcyclicPathDistinct(g, p);
    DistinctFits(p, NodeKeys(g));
    NodeKeysBound(g.nodes);
  }
}
