/** The voice worker: its own acyclicity check, how it picks an outgoing edge, and how its
    copy of the position stays with the call kept by the control plane. */
module VoiceWorker {
  import opened SwarmGraph
  import opened Calls
  import opened Sorting
  import GraphValidation
  import CallService
  import opened Wrappers

  // ---------------------------------------------------------------- graph_is_acyclic

  class AcyclicCheck {
    const graph: Graph
    var adjacency: map<string, seq<string>>
    var visiting: set<string>
    var visited: set<string>

    constructor (graph: Graph)
      ensures this.graph == graph && visiting == {} && visited == {}
    {
      this.graph := graph;
      adjacency, visiting, visited := map[], {}, {};
    }

    method Visit(node: string, ghost stack: seq<string>, ghost order: seq<string>)
      returns (ok: bool, ghost finished: seq<string>)
      requires GraphValidation.Lists(adjacency, graph.edges) && EdgesKnown(graph) && node in NodeKeys(graph)
      requires Searching(graph, visiting, visited, stack, order)
      requires MayEnter(graph, stack, node)
      modifies this`visiting, this`visited
      ensures !ok ==> !Acyclic(graph)
      ensures ok ==> Searching(graph, visiting, visited, stack, finished)
      ensures ok ==> order <= finished && node in finished
      decreases NodeKeys(graph) - Elements(stack)
    {
      finished := order;
      if node in visiting {
        BackEdgeIsCycle(graph, stack, node);
        return false, finished;
      }
      if node in visited {
        return true, finished;
      }
      EnterNode(graph, visiting, visited, stack, order, node);
      visiting := visiting + {node};
      ghost var pushed := stack + [node];
      var next := GraphValidation.Successors(adjacency, node);
      for i := 0 to |next|
        invariant Searching(graph, visiting, visited, pushed, finished)
        invariant order <= finished
        invariant forall j :: 0 <= j < i ==> next[j] in finished
      {
        assert next[i] in GraphValidation.Successors(adjacency, node);
        assert HasEdge(graph, node, next[i]);
        ok, finished := Visit(next[i], pushed, finished);
        if !ok {
          return false, finished;
        }
      }
      assert forall b :: HasEdge(graph, node, b) ==> b in next;
      LeaveNode(graph, visiting, visited, stack, finished, node);
      visiting := visiting - {node};
      visited := visited + {node};
      finished := finished + [node];
      ok := true;
    }

    /** Non-empty, entered at a known node, closed under its edges and free of cycles. */
    method GraphIsAcyclic() returns (ok: bool)
      requires visiting == {} && visited == {}
      modifies this
      ensures ok <==> graph.nodes != [] && graph.entryNodeKey in NodeKeys(graph) && EdgesKnown(graph) && Acyclic(graph)
    {
      var nodes := NodeKeys(graph);
      if nodes == {} || graph.entryNodeKey !in nodes {
        assert graph.nodes != [] ==> graph.nodes[0].key in nodes;
        return false;
      }
      adjacency := map key | key in nodes :: [];
      for i := 0 to |graph.edges|
        invariant GraphValidation.Lists(adjacency, graph.edges[..i])
        invariant forall e :: e in graph.edges[..i] ==> e.from in nodes && e.to in nodes
        invariant visiting == {} && visited == {}
      {
        var edge := graph.edges[i];
        if edge.from !in nodes || edge.to !in nodes {
          assert edge in graph.edges;
          return false;
        }
        GraphValidation.ListsOneMore(adjacency, graph.edges[..i], edge);
        assert graph.edges[..i + 1] == graph.edges[..i] + [edge];
        adjacency := adjacency[edge.from := GraphValidation.Successors(adjacency, edge.from) + [edge.to]];
      }
      assert graph.edges[..|graph.edges|] == graph.edges;
      var pending := nodes;
      ghost var order: seq<string> := [];
      while pending != {}
        invariant pending <= nodes && GraphValidation.Lists(adjacency, graph.edges)
        invariant Searching(graph, visiting, visited, [], order)
        invariant nodes - pending <= Elements(order)
        decreases pending
      {
        var key :| key in pending;
        ghost var before := order;
        ok, order := Visit(key, [], order);
        if !ok {
          return false;
        }
        assert Elements(before) <= Elements(order);
        pending := pending - {key};
      }
      TopologicalIsAcyclic(graph, order);
      return true;
    }
  }

  /** Every graph the control plane accepts passes the worker's own check, whatever node of
      it the campaign enters at. */
  lemma AcceptedPassesWorker(g: Graph, entry: string)
    requires GraphValidation.Deserves(g, GraphValidation.Accepted) && entry in NodeKeys(g)
    ensures var s := g.(entryNodeKey := entry);
            s.nodes != [] && s.entryNodeKey in NodeKeys(s) && EdgesKnown(s) && Acyclic(s)
  {
    SnapshotOfValidated(g, entry);
  }

  // ---------------------------------------------------------------- choosing an edge

  /** Values the worker captured; None is a stored null. */
  type Captured = map<string, Option<string>>

  /** Whether a condition holds of the captured values is left to the caller. */
  type Matcher = (Condition, Captured) -> bool

  function Outgoing(edges: seq<Edge>, node: string): seq<Edge> {
    if edges == [] then []
    else if edges[0].from == node then [edges[0]] + Outgoing(edges[1..], node)
    else Outgoing(edges[1..], node)
  }

  function FirstMatching(edges: seq<Edge>, captured: Captured, matches: Matcher): Option<Edge> {
    if edges == [] then None
    else if matches(edges[0].condition, captured) then Some(edges[0])
    else FirstMatching(edges[1..], captured, matches)
  }

  predicate AtLeast(a: Edge, b: Edge) {
    a.priority >= b.priority
  }

  /** The first matching edge after a stable sort by falling priority. */
  function ChooseTransition(g: Graph, node: string, captured: Captured, matches: Matcher): Option<Edge> {
    FirstMatching(Sort(Outgoing(g.edges, node), AtLeast), captured, matches)
  }

  predicate Candidate(e: Edge, node: string, captured: Captured, matches: Matcher) {
    e.from == node && matches(e.condition, captured)
  }

  /** Position of the earliest candidate among those of highest priority, or -1. */
  ghost predicate IsBest(edges: seq<Edge>, node: string, captured: Captured, matches: Matcher, k: int) {
    && -1 <= k < |edges|
    && (k == -1 ==> forall j :: 0 <= j < |edges| ==> !Candidate(edges[j], node, captured, matches))
    && (k >= 0 ==>
          && Candidate(edges[k], node, captured, matches)
          && forall j :: 0 <= j < |edges| && Candidate(edges[j], node, captured, matches) ==>
               edges[j].priority < edges[k].priority || (edges[j].priority == edges[k].priority && k <= j))
  }

  lemma {:induction false} FirstMatchingMember(edges: seq<Edge>, captured: Captured, matches: Matcher)
    ensures FirstMatching(edges, captured, matches).Some? ==>
              FirstMatching(edges, captured, matches).value in edges
  {
    if edges != [] {
      FirstMatchingMember(edges[1..], captured, matches);
    }
  }

  /** Inserting an edge in priority order changes the first match only if the edge matches
      and nothing better does. */
  lemma {:induction false} FirstMatchingInsert(e: Edge, s: seq<Edge>, captured: Captured, matches: Matcher)
    requires Sorted(s, AtLeast)
    ensures FirstMatching(Insert(e, s, AtLeast), captured, matches) ==
            var r := FirstMatching(s, captured, matches);
            if matches(e.condition, captured) && (r == None || e.priority >= r.value.priority) then Some(e) else r
  {
    if s != [] {
      FirstMatchingMember(s, captured, matches);
      if !AtLeast(e, s[0]) {
        FirstMatchingInsert(e, s[1..], captured, matches);
        assert Insert(e, s, AtLeast)[1..] == Insert(e, s[1..], AtLeast);
      } else {
        assert Insert(e, s, AtLeast)[1..] == s;
      }
    }
  }

  lemma {:induction false} ChooseIsBest'(edges: seq<Edge>, node: string, captured: Captured, matches: Matcher)
      returns (k: int)
    ensures IsBest(edges, node, captured, matches, k)
    ensures FirstMatching(Sort(Outgoing(edges, node), AtLeast), captured, matches) ==
            if k == -1 then None else Some(edges[k])
  {
    if edges == [] {
      k := -1;
    } else {
      var rest := edges[1..];
      var j := ChooseIsBest'(rest, node, captured, matches);
      var e := edges[0];
      if e.from == node {
        SortSorts(Outgoing(rest, node), AtLeast);
        FirstMatchingInsert(e, Sort(Outgoing(rest, node), AtLeast), captured, matches);
        assert Outgoing(edges, node)[1..] == Outgoing(rest, node);
      }
      if Candidate(e, node, captured, matches) && (j == -1 || e.priority >= rest[j].priority) {
        k := 0;
      } else {
        k := if j == -1 then -1 else j + 1;
      }
      forall i | 0 <= i < |edges| && Candidate(edges[i], node, captured, matches)
        ensures k >= 0
        ensures edges[i].priority < edges[k].priority || (edges[i].priority == edges[k].priority && k <= i)
      {
        if i > 0 {
          assert edges[i] == rest[i - 1];
        }
      }
    }
  }

  /** The chosen edge is the earliest of the matching outgoing edges of highest priority. */
  lemma ChooseIsBest(g: Graph, node: string, captured: Captured, matches: Matcher)
    ensures exists k ::
              && IsBest(g.edges, node, captured, matches, k)
              && ChooseTransition(g, node, captured, matches) == if k == -1 then None else Some(g.edges[k])
  {
    var k := ChooseIsBest'(g.edges, node, captured, matches);
  }

  // ---------------------------------------------------------------- preparing a handoff

  /** The control plane takes a handoff from this position. */
  ghost predicate HandoffGoes(c: Call, position: string) {
    !IsOver(c) && c.currentNodeKey == position
  }

  function Get(captured: Captured, key: string): Option<string> {
    if key in captured then captured[key] else None
  }

  function WithDefault(captured: Captured, key: string, value: string): Captured {
    if key in captured then captured else captured[key := Some(value)]
  }

  const ROUTE := "handoff_route"

  /** Puts the earlier route back: a missing route is removed, any other is stored again. */
  function Restored(captured: Captured): Captured {
    if Get(captured, ROUTE) == None then captured - {ROUTE} else captured
  }

  /** Every lookup answers as before; the stored values themselves are unchanged unless the
      earlier route was an explicit null, which is dropped. */
  lemma RestoredExactly(captured: Captured)
    ensures forall key :: Get(Restored(captured), key) == Get(captured, key)
    ensures Restored(captured) == captured <==> !(ROUTE in captured && captured[ROUTE] == None)
  {
    if ROUTE in captured && captured[ROUTE] == None {
      assert ROUTE !in Restored(captured);
    }
  }

  // ---------------------------------------------------------------- staying in step

  /** How a handoff request fares: refused or applied by the control plane and answered,
      never received, or applied with the answer lost. */
  datatype Link = Delivered | RequestLost | ResponseLost

  datatype Attempt = Attempt(to: string, reason: string, now: int, link: Link)

  /** The call and the worker's position after one attempt. */
  function Try(c: Call, position: string, a: Attempt): (Call, string) {
    if a.link == RequestLost then (c, position)
    else
      var r := Handoff(c, position, a.to, a.reason, a.now);
      if r.Err? then (c, position)
      else (r.value, if a.link == Delivered then a.to else position)
  }

  function TryAll(c: Call, position: string, attempts: seq<Attempt>): (Call, string)
    decreases |attempts|
  {
    if attempts == [] then (c, position)
    else
      var (d, p) := Try(c, position, attempts[0]);
      TryAll(d, p, attempts[1..])
  }

  /** Some attempt was applied to the call but its answer never reached the worker. */
  predicate LosesAnswer(c: Call, position: string, attempts: seq<Attempt>)
    decreases |attempts|
  {
    attempts != [] &&
    var a := attempts[0];
    var (d, p) := Try(c, position, a);
    (a.link == ResponseLost && Handoff(c, position, a.to, a.reason, a.now).Ok?) || LosesAnswer(d, p, attempts[1..])
  }

  /** An edge out of the current node is accepted exactly while the call has not ended. */
  lemma EdgeAccepted(c: Call, e: Edge, reason: string, now: int)
    requires SnapshotSound(c.snapshot) && e in c.snapshot.edges && e.from == c.currentNodeKey
    ensures Handoff(c, e.from, e.to, reason, now).Ok? <==> !c.status.Terminal()
  {
    assert e.from in NodeKeys(c.snapshot) && e.to in NodeKeys(c.snapshot);
  }

  lemma AcceptedMoves(c: Call, from: string, to: string, reason: string, now: int)
    requires Acyclic(c.snapshot) && Handoff(c, from, to, reason, now).Ok?
    ensures to != from
    ensures var d := Handoff(c, from, to, reason, now).value;
            d.currentNodeKey == to && d.snapshot == c.snapshot
  {
    assert HasEdge(c.snapshot, from, to);
    assert IsPath(c.snapshot, [from, to]);
  }

  /** Out of step stays out of step: the control plane refuses every later handoff. */
  lemma {:induction false} OutOfStepForGood(c: Call, position: string, attempts: seq<Attempt>)
    requires c.currentNodeKey != position
    ensures TryAll(c, position, attempts) == (c, position)
    decreases |attempts|
  {
    if attempts != [] {
      assert Try(c, position, attempts[0]) == (c, position);
      OutOfStepForGood(c, position, attempts[1..]);
    }
  }

  /** Worker and call end up at the same node exactly when no applied handoff lost its
      answer, whatever else was refused or lost on the way. */
  lemma {:induction false} InStepIff(c: Call, position: string, attempts: seq<Attempt>)
    requires Acyclic(c.snapshot) && c.currentNodeKey == position
    ensures var (d, p) := TryAll(c, position, attempts);
            d.currentNodeKey == p <==> !LosesAnswer(c, position, attempts)
    decreases |attempts|
  {
    if attempts != [] {
      var a := attempts[0];
      var r := Handoff(c, position, a.to, a.reason, a.now);
      var (d, p) := Try(c, position, a);
      if r.Ok? && a.link != RequestLost {
        AcceptedMoves(c, position, a.to, a.reason, a.now);
      }
      if d.currentNodeKey == p {
        InStepIff(d, p, attempts[1..]);
      } else {
        OutOfStepForGood(d, p, attempts[1..]);
      }
    }
  }

  class Worker {
    const graph: Graph
    const matches: Matcher
    var captured: Captured
    var currentNodeKey: string

    constructor (graph: Graph, matches: Matcher)
      ensures this.graph == graph && this.matches == matches
      ensures captured == map[] && currentNodeKey == graph.entryNodeKey
    {
      this.graph, this.matches := graph, matches;
      captured, currentNodeKey := map[], graph.entryNodeKey;
    }

    /** Applies a route, if any, and resolves the outgoing edge; a route that leads nowhere
        is taken back. */
    method PrepareHandoff(reason: string, route: string) returns (edge: Option<Edge>)
      modifies this`captured
      ensures var base := WithDefault(old(captured), "intent", reason);
              if route == "" then
                edge == ChooseTransition(graph, currentNodeKey, base, matches) && captured == base
              else
                var routed := base[ROUTE := Some(route)];
                && edge == ChooseTransition(graph, currentNodeKey, routed, matches)
                && captured == if edge == None then Restored(base) else routed
      ensures forall key :: key != "intent" && key != "handoff_route" ==>
                Get(captured, key) == Get(old(captured), key) && (key in captured <==> key in old(captured))
      ensures "intent" in captured
          && captured["intent"] == if "intent" in old(captured) then old(captured)["intent"] else Some(reason)
      ensures route != "" && edge.Some? ==> Get(captured, "handoff_route") == Some(route)
      ensures route == "" || edge == None ==> Get(captured, "handoff_route") == Get(old(captured), "handoff_route")
    {
      if "intent" !in captured {
        captured := captured["intent" := Some(reason)];
      }
      if route == "" {
        return ChooseTransition(graph, currentNodeKey, captured, matches);
      }
      ghost var base := captured;
      var previous := Get(captured, ROUTE);
      captured := captured[ROUTE := Some(route)];
      edge := ChooseTransition(graph, currentNodeKey, captured, matches);
      if edge == None {
        if previous == None {
          captured := captured - {ROUTE};
          assert captured == base - {ROUTE};
        } else {
          captured := captured[ROUTE := previous];
          assert captured == base;
        }
      }
    }

    /** Hands off along the chosen edge: with nobody else writing the call meanwhile, it and
        the worker's position move as one attempt does; nothing happens without an edge. */
    method HandoffToNextAgent(service: CallService.Service, callId: string, reason: string, route: string,
                              link: Link, now: int)
      returns (edge: Option<Edge>)
      requires callId in service.store.calls && service.store.calls[callId].snapshot == graph
      requires forall id :: id in service.store.calls ==> service.store.calls[id].id == id
      requires SnapshotSound(graph)
      modifies this, service.store
      ensures edge == None ==> service.store.calls == old(service.store.calls) && currentNodeKey == old(currentNodeKey)
      ensures edge.Some? ==>
                && edge.value in graph.edges && edge.value.from == old(currentNodeKey)
                && service.store.calls.Keys == old(service.store.calls).Keys
                && (service.store.calls[callId], currentNodeKey) ==
                   Try(old(service.store.calls)[callId], old(currentNodeKey), Attempt(edge.value.to, reason, now, link))
      ensures edge.Some? ==>
                var c, position := old(service.store.calls)[callId], old(currentNodeKey);
                if link != RequestLost && HandoffGoes(c, position) then
                  MovedAs(c, service.store.calls[callId], position, edge.value.to, reason, now)
                else service.store.calls == old(service.store.calls)
      ensures edge.Some? && link == Delivered && !old(service.store.calls)[callId].status.Terminal()
              && old(service.store.calls)[callId].currentNodeKey == old(currentNodeKey) ==>
                currentNodeKey == edge.value.to == service.store.calls[callId].currentNodeKey
    {
      hide AtLeast, Restored, SnapshotSound, Acyclic, MovedAs;
      var nodeKey := currentNodeKey;
      edge := PrepareHandoff(reason, route);
      if edge == None {
        return;
      }
      ChooseIsBest(graph, nodeKey, if route == "" then WithDefault(old(captured), "intent", reason)
                                   else WithDefault(old(captured), "intent", reason)[ROUTE := Some(route)], matches);
      assert edge.value in graph.edges && edge.value.from == nodeKey;
      ghost var call := service.store.calls[callId];
      if call.currentNodeKey == nodeKey {
        EdgeAccepted(call, edge.value, reason, now);
      }
      if link != RequestLost {
        var answer := service.RecordHandoff(callId, nodeKey, edge.value.to, reason, now, service.store.calls, true);
        if answer.Ok? && link == Delivered {
          currentNodeKey := edge.value.to;
        }
      }
    }
  }
}
