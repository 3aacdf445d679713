/** The call document of the control plane and what each operation makes of it. */
module Calls {
  import opened SwarmGraph
  import GraphValidation
  import opened Wrappers

  /** Instants and durations are in nanoseconds. */
  const SECOND := 1_000_000_000
  const MINUTE := 60 * SECOND
  const LEASE := 90 * SECOND

  lemma Units()
    ensures MINUTE == 60_000_000_000 && LEASE == 90_000_000_000
  {
  }

  datatype Status = Pending | Dispatching | Ringing | Active | Completed | Failed | Cancelled {
    predicate Terminal() {
      Completed? || Failed? || Cancelled?
    }

    /** Statuses that occupy one of a campaign's lines. */
    predicate Occupies() {
      Dispatching? || Ringing? || Active?
    }
  }

  datatype TraceEntry = TraceEntry(nodeKey: string, agentId: string, enteredAt: int,
                                   exitedAt: Option<int>, reason: string)

  datatype Call = Call(
    id: string, campaignId: string, idempotencyKey: string, status: Status,
    attempt: int, maxAttempts: int, scheduledAt: int, leaseUntil: Option<int>,
    snapshot: Graph, currentNodeKey: string, trace: seq<TraceEntry>, room: string,
    startedAt: Option<int>, endedAt: Option<int>)

  datatype HandoffError = CallNotFound | TerminalCall | SourceMismatch | NotAnEdge | NodeUnavailable | NotSaved

  // ---------------------------------------------------------------- graph lookups

  /** The agent of the first node with this key. */
  function AgentAt(nodes: seq<Node>, key: string): (r: Option<string>)
    ensures r.Some? <==> exists n :: n in nodes && n.key == key
  {
    if nodes == [] then None
    else if nodes[0].key == key then Some(nodes[0].agentId)
    else AgentAt(nodes[1..], key)
  }

  /** It is the first node that counts. */
  ghost predicate StaffedBy(nodes: seq<Node>, key: string, agentId: string) {
    exists i :: 0 <= i < |nodes| && nodes[i].key == key && nodes[i].agentId == agentId
                && forall j :: 0 <= j < i ==> nodes[j].key != key
  }

  lemma {:induction false} AgentAtIsFirst(nodes: seq<Node>, key: string)
    ensures AgentAt(nodes, key).Some? ==> StaffedBy(nodes, key, AgentAt(nodes, key).value)
  {
    if nodes != [] {
      AgentAtIsFirst(nodes[1..], key);
      if nodes[0].key == key {
        assert StaffedBy(nodes, key, nodes[0].agentId);
      } else if AgentAt(nodes, key).Some? {
        var agent, rest := AgentAt(nodes, key).value, nodes[1..];
        var i :| 0 <= i < |rest| && rest[i].key == key && rest[i].agentId == agent
                 && forall j :: 0 <= j < i ==> rest[j].key != key;
        assert forall j :: 0 < j <= i + 1 ==> nodes[j] == rest[j - 1];
        assert nodes[i + 1].key == key && nodes[i + 1].agentId == agent;
      }
    }
  }

  ghost predicate UniqueKeys(nodes: seq<Node>) {
    forall i, j :: 0 <= i < j < |nodes| ==> nodes[i].key != nodes[j].key
  }

  /** With unique keys the agent found is the agent of the one node that has the key. */
  lemma {:induction false} AgentAtUnique(nodes: seq<Node>, n: Node)
    requires UniqueKeys(nodes) && n in nodes
    ensures AgentAt(nodes, n.key) == Some(n.agentId)
  {
    if nodes[0] != n {
      assert n in nodes[1..];
      var i :| 0 < i < |nodes| && nodes[i] == n;
      AgentAtUnique(nodes[1..], n);
    }
  }

  // ---------------------------------------------------------------- dispatch operations

  function Claim(c: Call, now: int): Call {
    c.(status := Dispatching, leaseUntil := Some(now + LEASE), attempt := c.attempt + 1)
  }

  function Defer(c: Call, at: int): Call {
    c.(status := Pending, scheduledAt := at, leaseUntil := None,
       attempt := if c.attempt > 0 then c.attempt - 1 else c.attempt)
  }

  function CancelUndispatched(c: Call, now: int): Call {
    c.(status := Cancelled, leaseUntil := None, endedAt := Some(now))
  }

  function FailDispatch(c: Call, now: int): Call {
    var cleared := c.(leaseUntil := None);
    if c.attempt < c.maxAttempts
    then cleared.(status := Pending, scheduledAt := now + c.attempt * 5 * MINUTE)
    else cleared.(status := Failed, endedAt := Some(now))
  }

  /** The document saved after the telephony gateway accepted the dial. */
  function Ring(c: Call, room: string, now: int): Call {
    var rung := c.(status := Ringing, startedAt := Some(now), leaseUntil := None, room := room);
    var agent := AgentAt(c.snapshot.nodes, c.currentNodeKey);
    if c.trace == [] && agent.Some?
    then rung.(trace := [TraceEntry(c.currentNodeKey, agent.value, now, None, "")])
    else rung
  }

  function CloseLast(trace: seq<TraceEntry>, reason: Option<string>, now: int): (r: seq<TraceEntry>)
    ensures |r| == |trace|
  {
    if trace == [] || trace[|trace| - 1].exitedAt.Some? then trace
    else
      var last := trace[|trace| - 1].(exitedAt := Some(now));
      trace[|trace| - 1 := if reason.Some? then last.(reason := reason.value) else last]
  }

  function Complete(c: Call, failed: bool, now: int): Call {
    c.(status := if failed then Failed else Completed, endedAt := Some(now), leaseUntil := None,
       trace := CloseLast(c.trace, None, now))
  }

  function Handoff(c: Call, from: string, to: string, reason: string, now: int): Result<Call, HandoffError> {
    if c.status.Terminal() then Err(TerminalCall)
    else if c.currentNodeKey != from then Err(SourceMismatch)
    else if !(exists e :: e in c.snapshot.edges && e.from == from && e.to == to) then Err(NotAnEdge)
    else
      var toAgent := AgentAt(c.snapshot.nodes, to);
      if toAgent.None? then Err(NodeUnavailable)
      else
        var fromAgent := AgentAt(c.snapshot.nodes, from);
        if c.trace == [] && fromAgent.None? then Err(NodeUnavailable)
        else
          var begun := if c.trace == [] then [TraceEntry(from, fromAgent.value, now, None, "")] else c.trace;
          var closed := CloseLast(begun, Some(reason), now);
          Ok(c.(currentNodeKey := to,
                trace := closed + [TraceEntry(to, toAgent.value, now, None, "")]))
  }

  /** Direct, inbound and campaign calls as they are first stored. */
  predicate NewCampaignCall(c: Call) {
    && c.status == Pending && c.attempt == 0 && c.maxAttempts >= 1 && c.leaseUntil == None
    && c.currentNodeKey == c.snapshot.entryNodeKey && c.trace == []
  }

  predicate NewDirectCall(c: Call) {
    && c.campaignId == "" && c.status == Dispatching && c.attempt == 1 && c.maxAttempts == 1
    && c.leaseUntil == None && c.currentNodeKey == c.snapshot.entryNodeKey && c.trace == []
  }

  predicate NewInboundCall(c: Call) {
    && c.campaignId == "" && c.status == Active && c.attempt == 1 && c.maxAttempts == 1
    && c.leaseUntil == None && c.currentNodeKey == c.snapshot.entryNodeKey
    && |c.trace| == 1 && c.trace[0].nodeKey == c.currentNodeKey
    && AgentAt(c.snapshot.nodes, c.currentNodeKey) == Some(c.trace[0].agentId)
    && c.trace[0].exitedAt == None
  }

  // ---------------------------------------------------------------- the agent trace

  function TraceKeys(trace: seq<TraceEntry>): seq<string> {
    seq(|trace|, i requires 0 <= i < |trace| => trace[i].nodeKey)
  }

  ghost predicate EntriesStaffed(g: Graph, trace: seq<TraceEntry>) {
    forall i :: 0 <= i < |trace| ==> AgentAt(g.nodes, trace[i].nodeKey) == Some(trace[i].agentId)
  }

  ghost predicate EarlierClosed(trace: seq<TraceEntry>) {
    forall i :: 0 <= i < |trace| - 1 ==> trace[i].exitedAt.Some?
  }

  /** The trace is a path of the frozen graph from its entry to the current node, staffed
      by the right agents, with every entry but the last closed; the last one stays open
      until the call ends. */
  ghost predicate TraceSound(c: Call) {
    && (c.trace == [] ==> c.currentNodeKey == c.snapshot.entryNodeKey)
    && (c.trace != [] ==>
          && Joins(c.snapshot, TraceKeys(c.trace), c.snapshot.entryNodeKey, c.currentNodeKey)
          && (!c.status.Terminal() ==> c.trace[|c.trace| - 1].exitedAt == None))
    && EntriesStaffed(c.snapshot, c.trace)
    && EarlierClosed(c.trace)
  }

  lemma CloseLastMeaning(trace: seq<TraceEntry>, reason: Option<string>, now: int)
    ensures TraceKeys(CloseLast(trace, reason, now)) == TraceKeys(trace)
    ensures forall i :: 0 <= i < |trace| ==> CloseLast(trace, reason, now)[i].agentId == trace[i].agentId
                                             && CloseLast(trace, reason, now)[i].nodeKey == trace[i].nodeKey
    ensures EarlierClosed(trace) ==>
              forall i :: 0 <= i < |trace| ==> CloseLast(trace, reason, now)[i].exitedAt.Some?
  {
  }

  /** An accepted handoff keeps the trace sound, adds exactly one entry and moves along one
      edge; nothing else of the call changes. */
  lemma HandoffKeepsTrace(c: Call, from: string, to: string, reason: string, now: int)
    requires TraceSound(c) && Handoff(c, from, to, reason, now).Ok?
    ensures var d := Handoff(c, from, to, reason, now).value;
            && TraceSound(d)
            && HasEdge(c.snapshot, c.currentNodeKey, d.currentNodeKey)
            && |d.trace| == (if c.trace == [] then 2 else |c.trace| + 1)
            && d == c.(currentNodeKey := to, trace := d.trace)
  {
    var d := Handoff(c, from, to, reason, now).value;
    var begun := d.trace[..|d.trace| - 1];
    CloseLastMeaning(
      if c.trace == [] then [TraceEntry(from, AgentAt(c.snapshot.nodes, from).value, now, None, "")] else c.trace,
      Some(reason), now);
    var keys := TraceKeys(d.trace);
    var before := if c.trace == [] then [from] else TraceKeys(c.trace);
    assert keys == before + [to];
    assert HasEdge(c.snapshot, from, to);
    forall i | 0 <= i < |keys| - 1
      ensures HasEdge(c.snapshot, keys[i], keys[i + 1])
    {
      if i < |before| - 1 {
        assert keys[i] == before[i] && keys[i + 1] == before[i + 1];
      }
    }
    assert Joins(c.snapshot, keys, c.snapshot.entryNodeKey, to);
  }

  /** Completing a call closes its whole trace and keeps the path. */
  lemma CompleteKeepsTrace(c: Call, failed: bool, now: int)
    requires TraceSound(c)
    ensures var d := Complete(c, failed, now);
            && TraceSound(d)
            && d.status.Terminal()
            && TraceKeys(d.trace) == TraceKeys(c.trace)
            && forall i :: 0 <= i < |d.trace| ==> d.trace[i].exitedAt.Some?
  {
    CloseLastMeaning(c.trace, None, now);
  }

  // ---------------------------------------------------------------- what an operation leaves

  /** What a failed dispatch leaves of the call that was claimed for it: one that has attempts
      left waits again, five minutes longer for every attempt it has had; any other has failed. */
  ghost predicate GivenBack(c: Call, d: Call, now: int) {
    && (d.status == Pending <==> c.attempt < c.maxAttempts)
    && (d.status == Pending ==> d.scheduledAt == now + c.attempt * 300 * SECOND && d.endedAt == c.endedAt)
    && (d.status != Pending ==> d.status == Failed && d.endedAt == Some(now) && d.scheduledAt == c.scheduledAt)
    && d == c.(status := d.status, leaseUntil := None, scheduledAt := d.scheduledAt, endedAt := d.endedAt)
  }

  lemma FailDispatchMeans(c: Call, now: int)
    ensures GivenBack(c, FailDispatch(c, now), now)
  {
  }

  /** What an answered dial leaves: the call rings in its room; a trace that is still empty
      begins at the current node with the agent there, if there is one. */
  ghost predicate Rung(c: Call, d: Call, room: string, now: int) {
    && d == c.(status := Ringing, startedAt := Some(now), leaseUntil := None, room := room, trace := d.trace)
    && (c.trace != [] || (forall n :: n in c.snapshot.nodes ==> n.key != c.currentNodeKey) ==> d.trace == c.trace)
    && (c.trace == [] && (exists n :: n in c.snapshot.nodes && n.key == c.currentNodeKey) ==>
          && |d.trace| == 1 && d.trace[0] == TraceEntry(c.currentNodeKey, d.trace[0].agentId, now, None, "")
          && StaffedBy(c.snapshot.nodes, c.currentNodeKey, d.trace[0].agentId))
  }

  lemma RingMeans(c: Call, room: string, now: int)
    ensures Rung(c, Ring(c, room, now), room, now)
  {
    AgentAtIsFirst(c.snapshot.nodes, c.currentNodeKey);
    hide AgentAt, StaffedBy;
  }

  /** The last entry of a trace is left at `now`, if it had not been left before. */
  ghost predicate LastLeft(before: seq<TraceEntry>, after: seq<TraceEntry>, now: int, reason: Option<string>) {
    && |after| == |before|
    && (forall i :: 0 <= i < |before| - 1 ==> after[i] == before[i])
    && (before != [] ==>
          var last := before[|before| - 1];
          after[|after| - 1] ==
          if last.exitedAt.Some? then last
          else last.(exitedAt := Some(now), reason := if reason.Some? then reason.value else last.reason))
  }

  /** What a completion leaves. */
  ghost predicate EndedAs(c: Call, d: Call, failed: bool, now: int) {
    && d == c.(status := d.status, endedAt := Some(now), leaseUntil := None, trace := d.trace)
    && (if failed then d.status == Failed else d.status == Completed)
    && LastLeft(c.trace, d.trace, now, None)
  }

  lemma CompleteLeaves(c: Call, failed: bool, now: int)
    ensures EndedAs(c, Complete(c, failed, now), failed, now)
  {
  }

  /** What an accepted handoff leaves: the last entry is left for the given reason, or one for
      the node the call came from if it had none, and a new one is open. */
  ghost predicate MovedAs(c: Call, d: Call, from: string, to: string, reason: string, now: int) {
    && d == c.(currentNodeKey := to, trace := d.trace)
    && |d.trace| >= 2 && var n := |d.trace| - 1;
    && d.trace[n] == TraceEntry(to, d.trace[n].agentId, now, None, "")
    && StaffedBy(c.snapshot.nodes, to, d.trace[n].agentId)
    && if c.trace != [] then LastLeft(c.trace, d.trace[..n], now, Some(reason))
       else
         && n == 1 && d.trace[0] == TraceEntry(from, d.trace[0].agentId, now, Some(now), reason)
         && StaffedBy(c.snapshot.nodes, from, d.trace[0].agentId)
  }

  ghost predicate IsNode(g: Graph, key: string) {
    exists n :: n in g.nodes && n.key == key
  }

  ghost predicate IsOver(c: Call) {
    c.status == Completed || c.status == Failed || c.status == Cancelled
  }

  /** Exactly when a handoff is refused, and for what; and what it leaves if it is not. */
  lemma HandoffIff(c: Call, from: string, to: string, reason: string, now: int)
    ensures var r := Handoff(c, from, to, reason, now);
            && (r == Err(TerminalCall) <==> IsOver(c))
            && (r == Err(SourceMismatch) <==> !IsOver(c) && c.currentNodeKey != from)
            && (r == Err(NotAnEdge) <==> !IsOver(c) && c.currentNodeKey == from && !HasEdge(c.snapshot, from, to))
            && (r == Err(NodeUnavailable) <==>
                  && !IsOver(c) && c.currentNodeKey == from && HasEdge(c.snapshot, from, to)
                  && (!IsNode(c.snapshot, to) || (c.trace == [] && !IsNode(c.snapshot, from))))
            && (r.Err? ==> r.error == TerminalCall || r.error == SourceMismatch || r.error == NotAnEdge
                           || r.error == NodeUnavailable)
            && (r.Ok? ==> MovedAs(c, r.value, from, to, reason, now))
  {
    AgentAtIsFirst(c.snapshot.nodes, to);
    AgentAtIsFirst(c.snapshot.nodes, from);
    hide StaffedBy;
    var r := Handoff(c, from, to, reason, now);
    if r.Ok? {
      var n := |r.value.trace| - 1;
      assert r.value.trace[..n] ==
             CloseLast(if c.trace == [] then [TraceEntry(from, AgentAt(c.snapshot.nodes, from).value, now, None, "")]
                       else c.trace, Some(reason), now);
      hide AgentAt;
    }
  }

  function HandoffsIn(trace: seq<TraceEntry>): nat {
    if trace == [] then 0 else |trace| - 1
  }

  /** `d` is the same call as `c`: nothing that is fixed at its creation differs. */
  ghost predicate SameOrigin(c: Call, d: Call) {
    && c.id == d.id && c.campaignId == d.campaignId && c.idempotencyKey == d.idempotencyKey
    && c.maxAttempts == d.maxAttempts && c.snapshot == d.snapshot
  }

  /** `d` is `c` after one more handoff. */
  ghost predicate HandedOff(c: Call, d: Call) {
    && !c.status.Terminal()
    && d == c.(currentNodeKey := d.currentNodeKey, trace := d.trace)
    && HandoffsIn(d.trace) == HandoffsIn(c.trace) + 1
    && (TraceSound(c) ==> TraceSound(d))
  }

  /** `d` is `c` after it has ended. */
  ghost predicate Closed(c: Call, d: Call) {
    && d.status.Terminal() && d.leaseUntil == None
    && d == c.(status := d.status, endedAt := d.endedAt, leaseUntil := None, trace := d.trace)
    && HandoffsIn(d.trace) == HandoffsIn(c.trace)
    && (TraceSound(c) ==> TraceSound(d))
  }

  lemma HandoffMeans(c: Call, from: string, to: string, reason: string, now: int)
    requires Handoff(c, from, to, reason, now).Ok?
    ensures HandedOff(c, Handoff(c, from, to, reason, now).value)
  {
    hide TraceSound;
    if TraceSound(c) {
      HandoffKeepsTrace(c, from, to, reason, now);
    }
  }

  lemma CompleteMeans(c: Call, failed: bool, now: int)
    ensures Closed(c, Complete(c, failed, now))
  {
    hide TraceSound;
    if TraceSound(c) {
      CompleteKeepsTrace(c, failed, now);
    }
  }

  /** The ringing save begins an empty trace and keeps any other. */
  lemma RingKeepsTrace(c: Call, room: string, now: int)
    ensures var d := Ring(c, room, now);
            && SameOrigin(c, d) && d.status == Ringing && d.leaseUntil == None && d.attempt == c.attempt
            && HandoffsIn(d.trace) == HandoffsIn(c.trace)
            && (TraceSound(c) && !c.status.Terminal() ==> TraceSound(d))
  {
  }

  // ---------------------------------------------------------------- frozen snapshots

  /** What validation guarantees of a snapshot whatever node the campaign enters at. */
  ghost predicate SnapshotSound(g: Graph) {
    && g.nodes != [] && UniqueKeys(g.nodes) && EdgesKnown(g) && Acyclic(g)
  }

  /** A campaign freezes the validated swarm graph under its own entry node. */
  lemma SnapshotOfValidated(g: Graph, entry: string)
    requires GraphValidation.Deserves(g, GraphValidation.Accepted)
    ensures SnapshotSound(g.(entryNodeKey := entry))
  {
    GraphValidation.AcceptedIffWellFormed(g);
    var s := g.(entryNodeKey := entry);
    forall e | e in s.edges
      ensures e.from in NodeKeys(s) && e.to in NodeKeys(s)
    {
      assert GraphValidation.EdgeSound(g, e);
    }
    forall p | IsPath(s, p) && |p| >= 2
      ensures p[0] != p[|p| - 1]
    {
      assert forall a, b :: HasEdge(s, a, b) ==> HasEdge(g, a, b);
      assert IsPath(g, p);
    }
  }

  /** On a sound snapshot no node is entered twice, so the trace is no longer than the
      number of nodes. */
  lemma TraceNeverRepeats(c: Call)
    requires TraceSound(c) && SnapshotSound(c.snapshot)
    ensures Distinct(TraceKeys(c.trace))
    ensures |c.trace| <= |c.snapshot.nodes|
  {
    if c.trace != [] {
      AcyclicPathDistinct(c.snapshot, TraceKeys(c.trace));
      forall x | x in TraceKeys(c.trace)
        ensures x in NodeKeys(c.snapshot)
      {
        var i :| 0 <= i < |c.trace| && TraceKeys(c.trace)[i] == x;
        assert AgentAt(c.snapshot.nodes, c.trace[i].nodeKey).Some?;
      }
      AcyclicPathBound(c.snapshot, TraceKeys(c.trace));
    }
  }
}
