/** The calls collection and the service methods that change it, each proved against the
    call operations; one dispatch is shown to be a run of the interleaving protocol. */
module CallService {
  import opened SwarmGraph
  import opened Calls
  import opened CallingWindow
  import opened DispatchProtocol
  import opened Wrappers

  datatype CampaignStatus = InDraft | InProgress | Paused | Closed

  datatype Campaign = Campaign(status: CampaignStatus, window: Window, maxConcurrency: int)

  /** What looking up a document may say: it is there, it does not exist, or nobody knows. */
  datatype Lookup = Present | Absent | Unknown

  /** The answers of the outside world to one dispatch. */
  datatype Answers = Answers(campaigns: map<string, Campaign>, campaignsReadable: bool, countReadable: bool,
                             swarm: Lookup, answered: bool, room: string, stored: bool)

  datatype Outcome = Dialled | NothingEligible | Broken

  // ---------------------------------------------------------------- inserting calls

  predicate Insertable(calls: map<string, Call>, c: Call) {
    c.id !in calls && forall id :: id in calls ==> calls[id].idempotencyKey != c.idempotencyKey
  }

  /** An unordered insert under the unique keys: duplicates are skipped, the rest go in. */
  function InsertAll(calls: map<string, Call>, batch: seq<Call>): map<string, Call>
    decreases |batch|
  {
    if batch == [] then calls
    else if Insertable(calls, batch[0]) then InsertAll(calls[batch[0].id := batch[0]], batch[1..])
    else InsertAll(calls, batch[1..])
  }

  ghost predicate HasKey(calls: map<string, Call>, key: string) {
    exists id :: id in calls && calls[id].idempotencyKey == key
  }

  /** Nothing that is already stored changes. */
  lemma {:induction false} InsertAllKeeps(calls: map<string, Call>, batch: seq<Call>)
    ensures forall id :: id in calls ==> id in InsertAll(calls, batch) && InsertAll(calls, batch)[id] == calls[id]
    decreases |batch|
  {
    if batch != [] {
      InsertAllKeeps(if Insertable(calls, batch[0]) then calls[batch[0].id := batch[0]] else calls, batch[1..]);
    }
  }

  /** With fresh ids every target of the batch has a call afterwards. */
  lemma {:induction false} InsertAllCovers(calls: map<string, Call>, batch: seq<Call>)
    requires forall i :: 0 <= i < |batch| ==> batch[i].id !in calls
    requires forall i, j :: 0 <= i < j < |batch| ==> batch[i].id != batch[j].id
    ensures forall i :: 0 <= i < |batch| ==> HasKey(InsertAll(calls, batch), batch[i].idempotencyKey)
    decreases |batch|
  {
    if batch != [] {
      var c := batch[0];
      var next := if Insertable(calls, c) then calls[c.id := c] else calls;
      InsertAllCovers(next, batch[1..]);
      assert c.id in next ==> next[c.id].idempotencyKey == c.idempotencyKey;
      assert HasKey(next, c.idempotencyKey);
      var id :| id in next && next[id].idempotencyKey == c.idempotencyKey;
      InsertAllKeeps(next, batch[1..]);
      assert InsertAll(calls, batch)[id] == next[id];
      forall i | 0 <= i < |batch|
        ensures HasKey(InsertAll(calls, batch), batch[i].idempotencyKey)
      {
        if i > 0 {
          assert batch[i] == batch[1..][i - 1];
        }
      }
    }
  }

  /** Targets that all have a call already insert nothing: scheduling again is idempotent. */
  lemma {:induction false} InsertAllAgain(calls: map<string, Call>, batch: seq<Call>)
    requires forall i :: 0 <= i < |batch| ==> HasKey(calls, batch[i].idempotencyKey)
    ensures InsertAll(calls, batch) == calls
    decreases |batch|
  {
    if batch != [] {
      assert HasKey(calls, batch[0].idempotencyKey);
      InsertAllAgain(calls, batch[1..]);
    }
  }

  class CallStore {
    var calls: map<string, Call>

    constructor ()
      ensures calls == map[]
    {
      calls := map[];
    }

    /** Claims the eligible pending call that was scheduled first. */
    method ClaimPendingCall(now: int) returns (r: Option<Call>)
      modifies this
      ensures r == None ==> calls == old(calls) && forall id :: id in calls ==> !Due(calls[id], now)
      ensures r.Some? ==> exists id :: ClaimedFirst(old(calls), id, now)
                                       && r.value == ClaimedAt(old(calls)[id], now)
                                       && calls == old(calls)[id := r.value]
    {
      var rest := calls.Keys;
      var best: Option<string> := None;
      while rest != {}
        invariant rest <= calls.Keys && calls == old(calls)
        invariant best == None ==> forall id :: id in calls && id !in rest ==> !Claimable(calls[id], now)
        invariant best.Some? ==>
                    && best.value in calls && Claimable(calls[best.value], now)
                    && forall id :: id in calls && id !in rest && Claimable(calls[id], now) ==>
                         calls[best.value].scheduledAt <= calls[id].scheduledAt
        decreases rest
      {
        var id :| id in rest;
        rest := rest - {id};
        if Claimable(calls[id], now) && (best == None || calls[id].scheduledAt < calls[best.value].scheduledAt) {
          best := Some(id);
        }
      }
      if best == None {
        return None;
      }
      var claimed := Claim(calls[best.value], now);
      calls := calls[best.value := claimed];
      assert ClaimedFirst(old(calls), best.value, now);
      return Some(claimed);
    }

    /** Counts a campaign's occupied lines, leaving one call out. */
    method CountActiveCampaignCalls(campaignId: string, excluded: string) returns (n: nat)
      ensures n == |ActiveOf(calls, campaignId, excluded)| == |Lines(calls, campaignId, excluded)|
    {
      n := 0;
      var rest := calls.Keys;
      ghost var counted: set<string> := {};
      while rest != {}
        invariant rest <= calls.Keys && counted !! rest
        invariant counted == set id | id in ActiveOf(calls, campaignId, excluded) && id !in rest
        invariant n == |counted|
        decreases rest
      {
        var id :| id in rest;
        rest := rest - {id};
        if id != excluded && calls[id].campaignId == campaignId && calls[id].status.Occupies() {
          n := n + 1;
          counted := counted + {id};
        }
      }
      assert counted == ActiveOf(calls, campaignId, excluded) == Lines(calls, campaignId, excluded);
    }

    method InsertCalls(batch: seq<Call>) returns (inserted: nat)
      modifies this
      ensures calls == InsertAll(old(calls), batch)
      ensures inserted == |calls| - |old(calls)|
    {
      inserted := 0;
      for i := 0 to |batch|
        invariant InsertAll(old(calls), batch) == InsertAll(calls, batch[i..])
        invariant inserted == |calls| - |old(calls)|
      {
        var c := batch[i];
        assert batch[i..][0] == c && batch[i..][1..] == batch[i + 1..];
        if Insertable(calls, c) {
          calls := calls[c.id := c];
          inserted := inserted + 1;
        }
      }
    }

    /** What everybody else does to the collection between two accesses of one request. */
    method OthersWrite(meanwhile: map<string, Call>)
      modifies this
      ensures calls == meanwhile
    {
      calls := meanwhile;
    }

    method SaveCall(c: Call)
      modifies this
      ensures calls == old(calls)[c.id := c]
    {
      calls := calls[c.id := c];
    }
  }

  /** A waiting call whose time has come and that nobody has a lease on. */
  ghost predicate Due(c: Call, now: int) {
    c.status == Pending && c.scheduledAt <= now && (c.leaseUntil.Some? ==> c.leaseUntil.value <= now)
  }

  ghost predicate ClaimedFirst(calls: map<string, Call>, id: string, now: int) {
    && id in calls && Due(calls[id], now)
    && forall j :: j in calls && Due(calls[j], now) ==> calls[id].scheduledAt <= calls[j].scheduledAt
  }

  /** The call with one attempt more and a lease of ninety seconds. */
  ghost function ClaimedAt(c: Call, now: int): Call {
    c.(status := Dispatching, attempt := c.attempt + 1, leaseUntil := Some(now + 90 * SECOND))
  }

  lemma ClaimIsClaimedAt(c: Call, now: int)
    ensures Claim(c, now) == ClaimedAt(c, now) && (Due(c, now) <==> Claimable(c, now))
  {
  }

  /** The calls that occupy a line of the campaign, but for one. */
  ghost function Lines(calls: map<string, Call>, campaignId: string, excluded: string): set<string> {
    set id | id in calls && id != excluded && calls[id].campaignId == campaignId
             && (calls[id].status == Dispatching || calls[id].status == Ringing || calls[id].status == Active)
  }

  // ---------------------------------------------------------------- runs of one dispatcher

  function GateOf(answers: Answers, id: string, now: int): Gate {
    if LookUp(answers, id) != Present then Unreadable
    else match answers.campaigns[id].status
      case Closed => Ended
      case InDraft => NotRunning
      case Paused => NotRunning
      case InProgress =>
        var window := answers.campaigns[id].window;
        if !Within(window, now) then OutsideWindow(Next(window, now)) else Open
  }

  /** The campaign can be read and exists. */
  ghost predicate Known(answers: Answers, id: string) {
    answers.campaignsReadable && id in answers.campaigns
  }

  function LookUp(answers: Answers, id: string): Lookup {
    if !answers.campaignsReadable then Unknown else if id in answers.campaigns then Present else Absent
  }

  /** A dispatcher `w` is alone with the store: its moves so far are `run` from `s`. */
  ghost predicate Follows(s: State, run: seq<Step>, w: nat, p: Phase, calls: map<string, Call>) {
    && Legal(s, run)
    && Exec(s, run).workers == s.workers[w := p]
    && Exec(s, run).calls == calls
    && Exec(s, run).limits == s.limits
  }

  lemma FollowMove(s: State, run: seq<Step>, w: nat, p: Phase, calls: map<string, Call>, step: Step, d: Decision)
    requires Follows(s, run, w, p, calls)
    requires Decides(step) && step.worker == w && Enabled(Exec(s, run), step)
    requires DecisionOf(Exec(s, run), step) == d
    ensures Follows(s, run + [step], w, PhaseFor(p.call, d), calls)
  {
    AppendLegal(s, run, step);
    hide PhaseFor, Legal, Exec;
    assert After(Exec(s, run), step) == Move(Exec(s, run), w, d);
  }

  lemma FollowClaim(s: State, w: nat, id: string, now: int)
    requires w !in s.workers && id in s.calls && Claimable(s.calls[id], now)
    ensures var c := Claim(s.calls[id], now);
            Follows(s, [ClaimNext(w, id, now)], w,
                    if c.campaignId == "" then Cleared(c) else Checking(c), s.calls[id := c])
  {
    EmptyRun(s);
    AppendLegal(s, [], ClaimNext(w, id, now));
    assert [] + [ClaimNext(w, id, now)] == [ClaimNext(w, id, now)];
  }

  lemma EnabledDecision(s: State, step: Step)
    requires Decides(step) && step.worker in s.workers
    requires match s.workers[step.worker]
             case Checking(_) => step.ReadCampaign?
             case Counting(_) => step.CountActive?
             case Cleared(_) => step.ReadSwarm?
             case Dialing(_) => step.Dial?
             case Saving(_) => false
    ensures Enabled(s, step)
  {
  }

  lemma CountingPhase(c: Call)
    ensures PhaseFor(c, GoCount) == Counting(c)
  {
  }

  lemma PhaseMeaning(c: Call, d: Decision)
    ensures d.GoClear? ==> PhaseFor(c, d) == Cleared(c)
    ensures d.GoDial? ==> PhaseFor(c, d) == Dialing(c)
    ensures d.PutBack? || d.Abandon? || d.Fail? ==> PhaseFor(c, d).Saving?
    ensures d.Fail? ==> PhaseFor(c, d) == Saving(FailDispatch(c, d.now))
  {
  }

  lemma FollowSave(s: State, run: seq<Step>, w: nat, p: Phase, calls: map<string, Call>, stored: bool)
    requires Follows(s, run, w, p, calls) && p.Saving? && w !in s.workers
    ensures var r := run + [Save(w, stored)];
            && Legal(s, r) && Exec(s, r).workers == s.workers
            && Exec(s, r).limits == s.limits
            && Exec(s, r).calls == if stored then calls[p.call.id := p.call] else calls
  {
    AppendLegal(s, run, Save(w, stored));
    assert s.workers[w := p] - {w} == s.workers;
  }

  // ---------------------------------------------------------------- what one dispatch does

  /** The campaign gates: status, calling window, free lines. */
  function GateDecision(calls: map<string, Call>, c: Call, now: int, answers: Answers): (d: Decision)
    ensures d.GoClear? || d.PutBack? || d.Abandon? || d.Fail?
    ensures d.GoClear? <==>
            && Known(answers, c.campaignId)
            && answers.campaigns[c.campaignId].status == InProgress
            && Within(answers.campaigns[c.campaignId].window, now)
            && answers.countReadable
            && |Lines(calls, c.campaignId, c.id)| < answers.campaigns[c.campaignId].maxConcurrency
    ensures d.Abandon? <==> Known(answers, c.campaignId) && answers.campaigns[c.campaignId].status == Closed
    ensures d.Fail? <==>
            || !Known(answers, c.campaignId)
            || (answers.campaigns[c.campaignId].status == InProgress
                && Within(answers.campaigns[c.campaignId].window, now) && !answers.countReadable)
    ensures d.PutBack? ==>
              Known(answers, c.campaignId) &&
              var k := answers.campaigns[c.campaignId];
              d.at == if k.status != InProgress then now + 60 * SECOND
                      else if !Within(k.window, now) then Next(k.window, now) else now + 30 * SECOND
    ensures d.Abandon? || d.Fail? ==> d.now == now
  {
    assert ActiveOf(calls, c.campaignId, c.id) == Lines(calls, c.campaignId, c.id);
    var d := AfterGate(GateOf(answers, c.campaignId, now), now);
    if !d.GoCount? then d
    else if !answers.countReadable then Fail(now)
    else if |ActiveOf(calls, c.campaignId, c.id)| >= answers.campaigns[c.campaignId].maxConcurrency
    then PutBack(now + 30 * SECOND)
    else GoClear
  }

  /** How a claimed call ends up: gates for campaign calls, then the swarm, then the dial. */
  function FinalDecision(calls: map<string, Call>, c: Call, now: int, answers: Answers): Decision {
    if c.campaignId != "" && !GateDecision(calls, c, now, answers).GoClear? then GateDecision(calls, c, now, answers)
    else if answers.swarm == Present && answers.answered then RingUp(answers.room, now)
    else Fail(now)
  }

  /** The document for want of which the dispatch of a claimed call fails does not exist. */
  predicate WantsAbsent(calls: map<string, Call>, c: Call, now: int, answers: Answers) {
    if c.campaignId != "" && !GateDecision(calls, c, now, answers).GoClear?
    then LookUp(answers, c.campaignId) == Absent
    else answers.swarm == Absent
  }

  /** Only a dial that was stored counts. A stored deferral or cancellation looks like an
      empty queue, and so does a failure for want of a document that does not exist, stored
      or not: both report that nothing was found. */
  function OutcomeOf(d: Decision, stored: bool, wantsAbsent: bool): Outcome {
    if d.Fail? then (if wantsAbsent then NothingEligible else Broken)
    else if !stored then Broken
    else if d.RingUp? then Dialled
    else NothingEligible
  }

  /** One dispatch takes the collection from `before` to `after`. */
  ghost predicate Dispatches(before: map<string, Call>, after: map<string, Call>, now: int, answers: Answers,
                             outcome: Outcome)
  {
    if forall id :: id in before ==> !Due(before[id], now) then outcome == NothingEligible && after == before
    else exists id :: ClaimedFirst(before, id, now) && DispatchOf(before, id, now, answers) == (after, outcome)
                      && (before[id].id == id ==> Leaves(before, id, after, now, answers, outcome))
  }

  /** The gates let the call through: it belongs to no campaign, or its campaign runs, its
      window is open and it has a free line. */
  ghost predicate LetThrough(calls: map<string, Call>, c: Call, now: int, answers: Answers) {
    c.campaignId != "" ==>
      && Known(answers, c.campaignId)
      && var k := answers.campaigns[c.campaignId];
      && k.status == InProgress && Within(k.window, now)
      && answers.countReadable && |Lines(calls, c.campaignId, c.id)| < k.maxConcurrency
  }

  /** What a dispatch that was stored leaves of the waiting call `c`. */
  ghost predicate LeavesOf(before: map<string, Call>, c: Call, d: Call, now: int, answers: Answers) {
    var claimed := ClaimedAt(c, now);
    if LetThrough(before, c, now, answers) then
      if answers.swarm == Present && answers.answered then Rung(claimed, d, answers.room, now)
      else GivenBack(claimed, d, now)
    else if !Known(answers, c.campaignId) then GivenBack(claimed, d, now)
    else
      var k := answers.campaigns[c.campaignId];
      if k.status == Closed then d == claimed.(status := Cancelled, leaseUntil := None, endedAt := Some(now))
      else if k.status != InProgress then d == c.(scheduledAt := now + 60 * SECOND, leaseUntil := None)
      else if !Within(k.window, now) then d == c.(scheduledAt := Next(k.window, now), leaseUntil := None)
      else if !answers.countReadable then GivenBack(claimed, d, now)
      else d == c.(scheduledAt := now + 30 * SECOND, leaseUntil := None)
  }

  /** A dispatch that reports nothing to do: the document it wanted does not exist, or it was
      stored and has put the call off or cancelled it. */
  ghost predicate NothingDone(before: map<string, Call>, c: Call, now: int, answers: Answers) {
    if LetThrough(before, c, now, answers) then answers.swarm == Absent
    else if !Known(answers, c.campaignId) then answers.campaignsReadable
    else
      var k := answers.campaigns[c.campaignId];
      answers.stored && !(k.status == InProgress && Within(k.window, now) && !answers.countReadable)
  }

  /** What one dispatch of the waiting call `id` leaves, and what it reports. */
  ghost predicate Leaves(before: map<string, Call>, id: string, after: map<string, Call>, now: int, answers: Answers,
                         outcome: Outcome)
    requires id in before
  {
    && id in after && after == before[id := after[id]]
    && (before[id].attempt >= 0 ==>
          if answers.stored then LeavesOf(before, before[id], after[id], now, answers)
          else after[id] == ClaimedAt(before[id], now))
    && (outcome == NothingEligible <==> NothingDone(before, before[id], now, answers))
    && (outcome == Dialled <==>
          && answers.stored && LetThrough(before, before[id], now, answers)
          && answers.swarm == Present && answers.answered)
  }

  lemma ClaimedLines(before: map<string, Call>, id: string, now: int)
    requires id in before && before[id].id == id
    ensures var c := Claim(before[id], now);
            Lines(before[id := c], c.campaignId, c.id) == Lines(before, before[id].campaignId, id)
  {
  }

  lemma DecisionLeaves(before: map<string, Call>, id: string, now: int, answers: Answers)
    requires id in before && before[id].id == id && Due(before[id], now)
    ensures var c := Claim(before[id], now);
            var d := FinalDecision(before[id := c], c, now, answers);
            && (before[id].attempt >= 0 ==> LeavesOf(before, before[id], PhaseFor(c, d).call, now, answers))
            && PhaseFor(c, d).call.id == id
  {
    ClaimedLines(before, id, now);
    ClaimIsClaimedAt(before[id], now);
    var c := Claim(before[id], now);
    FailDispatchMeans(c, now);
    RingMeans(c, answers.room, now);
    hide Lines, Within, Next, GivenBack, Rung, FailDispatch, Ring, ClaimedAt;
    var d := FinalDecision(before[id := c], c, now, answers);
    PhaseKeepsId(c, d);
    if d.PutBack? {
      PutBackLeaves(before[id], now, d.at);
      hide Defer;
    }
  }

  lemma PutBackLeaves(c: Call, now: int, at: int)
    ensures c.attempt >= 0 && c.status == Pending ==>
              Defer(Claim(c, now), at) == c.(scheduledAt := at, leaseUntil := None)
  {
  }

  /** What a dispatch leaves, in terms of the documents and the answers alone. */
  lemma DispatchLeaves(before: map<string, Call>, id: string, now: int, answers: Answers)
    requires id in before && before[id].id == id && Due(before[id], now)
    ensures var (after, outcome) := DispatchOf(before, id, now, answers);
            Leaves(before, id, after, now, answers, outcome)
  {
    DecisionLeaves(before, id, now, answers);
    ClaimIsClaimedAt(before[id], now);
    ClaimedLines(before, id, now);
    hide LeavesOf, Lines, Within, PhaseFor, Claim, ClaimedAt;
  }

  function DispatchOf(before: map<string, Call>, id: string, now: int, answers: Answers): (map<string, Call>, Outcome)
    requires id in before
  {
    var c := Claim(before[id], now);
    var claimed := before[id := c];
    var d := FinalDecision(claimed, c, now, answers);
    var saved := PhaseFor(c, d).call;
    (if answers.stored then claimed[saved.id := saved] else claimed,
     OutcomeOf(d, answers.stored, WantsAbsent(claimed, c, now, answers)))
  }

  /** A dispatch reports a dial exactly when it leaves the call it claimed ringing. */
  lemma DialledIffRings(before: map<string, Call>, id: string, now: int, answers: Answers)
    requires id in before && before[id].id == id
    ensures var (after, outcome) := DispatchOf(before, id, now, answers);
            id in after && (outcome == Dialled <==> after[id].status == Ringing)
  {
    var c := Claim(before[id], now);
    var d := FinalDecision(before[id := c], c, now, answers);
    if d.RingUp? {
      RingKeepsTrace(c, d.room, d.now);
    }
    hide Ring, GateDecision;
  }

  // ---------------------------------------------------------------- the service

  /** A campaign target; `dialable` says that its phone number has the E.164 form. */
  datatype Target = Target(externalId: string, phone: string, dialable: bool)

  datatype Report = Report(received: nat, scheduled: nat, duplicates: nat, invalid: nat)

  datatype ScheduleError = BadTargetCount | CampaignClosed

  function TargetKey(campaignId: string, t: Target): string {
    campaignId + ":" + (if t.externalId == "" then t.phone else t.externalId)
  }

  ghost predicate Covers(batch: seq<Call>, key: string) {
    exists j :: 0 <= j < |batch| && batch[j].idempotencyKey == key
  }

  lemma {:induction false} InsertAllOrigin(calls: map<string, Call>, batch: seq<Call>)
    ensures forall id :: id in InsertAll(calls, batch) && id !in calls ==> InsertAll(calls, batch)[id] in batch
    decreases |batch|
  {
    if batch != [] {
      var next := if Insertable(calls, batch[0]) then calls[batch[0].id := batch[0]] else calls;
      InsertAllOrigin(next, batch[1..]);
      InsertAllKeeps(next, batch[1..]);
    }
  }

  lemma {:induction false} InsertedAtMost(calls: map<string, Call>, batch: seq<Call>)
    ensures |InsertAll(calls, batch)| <= |calls| + |batch|
    decreases |batch|
  {
    if batch != [] {
      InsertedAtMost(if Insertable(calls, batch[0]) then calls[batch[0].id := batch[0]] else calls, batch[1..]);
    }
  }

  /** How many calls one batch may dispatch. */
  function Bound(limit: int): (b: nat)
    ensures 1 <= b <= 10 && (1 <= limit <= 10 ==> b == limit) && (limit < 1 ==> b == 1) && (limit > 10 ==> b == 10)
  {
    if limit < 1 then 1 else if limit > 10 then 10 else limit
  }

  datatype Triggered = Existing(call: Call) | NotStored | DialAccepted(callId: string) | DialFailed(callId: string)

  function DirectCall(id: string, key: string, swarm: Graph, now: int): Call {
    Call(id, "", "direct:" + key, Dispatching, 1, 1, now, None, swarm, swarm.entryNodeKey, [], "", None, None)
  }

  lemma OutcomeMeaning(room: string, now: int, stored: bool)
    ensures OutcomeOf(RingUp(room, now), stored, false) == Dialled <==> stored
    ensures OutcomeOf(Fail(now), stored, false) != Dialled
  {
  }

  lemma PhaseKeepsId(c: Call, d: Decision)
    ensures PhaseFor(c, d).call.id == c.id
  {
  }

  lemma FollowTrigger(s: State, w: nat, c: Call)
    requires w !in s.workers && NewDirectCall(c) && c.id !in s.calls && !KeyTaken(s, c.idempotencyKey)
    ensures Follows(s, [Trigger(w, c)], w, Dialing(c), s.calls[c.id := c])
  {
    EmptyRun(s);
    AppendLegal(s, [], Trigger(w, c));
    assert [] + [Trigger(w, c)] == [Trigger(w, c)];
  }

  /** The targets that no call can be made to. */
  function Undialable(targets: seq<Target>): nat {
    if targets == [] then 0
    else Undialable(targets[..|targets| - 1]) + (if targets[|targets| - 1].dialable then 0 else 1)
  }

  /** A new call that some target of this request asks for. */
  ghost predicate CallFor(c: Call, campaignId: string, snapshot: Graph, maxAttempts: int, now: int,
                          targets: seq<Target>)
  {
    && NewCampaignCall(c) && c.campaignId == campaignId && c.snapshot == snapshot
    && c.maxAttempts == maxAttempts && c.scheduledAt == now
    && c.room == "" && c.startedAt == None && c.endedAt == None
    && exists t :: t in targets && t.dialable
                   && c.idempotencyKey == campaignId + ":" + (if t.externalId == "" then t.phone else t.externalId)
  }

  lemma CallForTarget(c: Call, campaignId: string, snapshot: Graph, maxAttempts: int, now: int, targets: seq<Target>,
      i: nat)
    requires i < |targets| && targets[i].dialable && c.idempotencyKey == TargetKey(campaignId, targets[i])
    requires NewCampaignCall(c) && c.campaignId == campaignId && c.snapshot == snapshot
    requires c.maxAttempts == maxAttempts && c.scheduledAt == now
    requires c.room == "" && c.startedAt == None && c.endedAt == None
    ensures CallFor(c, campaignId, snapshot, maxAttempts, now, targets)
  {
    assert targets[i] in targets;
  }

  lemma CoversMore(batch: seq<Call>, c: Call)
    ensures Covers(batch + [c], c.idempotencyKey)
    ensures forall key :: Covers(batch, key) ==> Covers(batch + [c], key)
  {
    assert (batch + [c])[|batch|] == c;
    forall key | Covers(batch, key)
      ensures Covers(batch + [c], key)
    {
      var j :| 0 <= j < |batch| && batch[j].idempotencyKey == key;
      assert (batch + [c])[j] == batch[j];
    }
  }

  lemma MovedIfAccepted(c: Call, from: string, to: string, reason: string, now: int)
    ensures var r := Handoff(c, from, to, reason, now); r.Ok? ==> MovedAs(c, r.value, from, to, reason, now)
  {
    HandoffIff(c, from, to, reason, now);
    hide Handoff, MovedAs;
  }

  /** A direct call has one attempt only. */
  lemma DirectGivenBack(c: Call, d: Call, now: int)
    requires NewDirectCall(c) && GivenBack(c, d, now)
    ensures d == c.(status := Failed, endedAt := Some(now))
  {
  }

  datatype InboundError = RoomRequired | EntryUnavailable | SaveFailed

  ghost predicate RoomTaken(calls: map<string, Call>, room: string) {
    exists id :: id in calls && calls[id].room == room
  }

  class Service {
    const store: CallStore

    constructor (store: CallStore)
      ensures this.store == store
    {
      this.store := store;
    }

    /** The agent of the first node that carries this key. */
    method GraphAgentId(g: Graph, nodeKey: string) returns (agent: Option<string>)
      ensures agent == AgentAt(g.nodes, nodeKey)
    {
      for i := 0 to |g.nodes|
        invariant AgentAt(g.nodes, nodeKey) == AgentAt(g.nodes[i..], nodeKey)
      {
        if g.nodes[i].key == nodeKey {
          return Some(g.nodes[i].agentId);
        }
      }
      return None;
    }

    /** Reads the call, decides, and replaces the whole stored document; `meanwhile` is what
        the collection has become when the save arrives. */
    method RecordHandoff(callId: string, fromNode: string, toNode: string, reason: string, now: int,
                         meanwhile: map<string, Call>, stored: bool)
      returns (r: Result<Call, HandoffError>)
      requires forall id :: id in store.calls ==> store.calls[id].id == id
      modifies store
      ensures callId !in old(store.calls) ==> r == Err(CallNotFound)
      ensures callId in old(store.calls) ==>
                var decided := Handoff(old(store.calls)[callId], fromNode, toNode, reason, now);
                r == if decided.Ok? && !stored then Err(NotSaved) else decided
      ensures r.Ok? ==> store.calls == meanwhile[callId := r.value]
      ensures r == Err(NotSaved) ==> store.calls == meanwhile
      ensures r.Err? && r != Err(NotSaved) ==> store.calls == old(store.calls)
      ensures r.Ok? ==> MovedAs(old(store.calls)[callId], r.value, fromNode, toNode, reason, now)
    {
      hide MovedAs;
      if callId !in store.calls {
        return Err(CallNotFound);
      }
      var call := store.calls[callId];
      ghost var read := call;
      if call.status == Completed || call.status == Failed || call.status == Cancelled {
        return Err(TerminalCall);
      }
      if call.currentNodeKey != fromNode {
        return Err(SourceMismatch);
      }
      var edges := call.snapshot.edges;
      var allowed := false;
      var i := 0;
      while i < |edges| && !allowed
        invariant 0 <= i <= |edges|
        invariant allowed ==> EdgeIn(edges, fromNode, toNode)
        invariant !allowed ==> forall e :: e in edges[..i] ==> !(e.from == fromNode && e.to == toNode)
      {
        assert edges[i] in edges;
        allowed := edges[i].from == fromNode && edges[i].to == toNode;
        i := i + 1;
      }
      assert !allowed ==> edges[..i] == edges;
      if !allowed {
        return Err(NotAnEdge);
      }
      var toAgent := GraphAgentId(call.snapshot, toNode);
      if toAgent == None {
        return Err(NodeUnavailable);
      }
      if |call.trace| == 0 {
        var fromAgent := GraphAgentId(call.snapshot, fromNode);
        if fromAgent == None {
          return Err(NodeUnavailable);
        }
        call := call.(trace := call.trace + [TraceEntry(fromNode, fromAgent.value, now, None, "")]);
        assert call.trace == [TraceEntry(fromNode, fromAgent.value, now, None, "")];
      }
      ghost var begun := call.trace;
      var last := |call.trace| - 1;
      if call.trace[last].exitedAt == None {
        call := call.(trace := call.trace[last := call.trace[last].(exitedAt := Some(now), reason := reason)]);
      }
      assert call.trace == CloseLast(begun, Some(reason), now);
      call := call.(trace := call.trace + [TraceEntry(toNode, toAgent.value, now, None, "")]);
      call := call.(currentNodeKey := toNode);
      store.OthersWrite(meanwhile);
      if !stored {
        return Err(NotSaved);
      }
      store.SaveCall(call);
      MovedIfAccepted(read, fromNode, toNode, reason, now);
      return Ok(call);
    }

    /** Reads the call, works out its disposition, and replaces the whole stored document;
        `meanwhile` is what the collection has become when the save arrives. */
    method CompleteCall(callId: string, failed: bool, now: int, meanwhile: map<string, Call>, stored: bool)
      returns (r: Option<Call>)
      requires forall id :: id in store.calls ==> store.calls[id].id == id
      modifies store
      ensures r.Some? <==> callId in old(store.calls) && stored
      ensures callId !in old(store.calls) ==> store.calls == old(store.calls)
      ensures callId in old(store.calls) && !stored ==> store.calls == meanwhile
      ensures r.Some? ==>
                && r.value == Complete(old(store.calls)[callId], failed, now)
                && EndedAs(old(store.calls)[callId], r.value, failed, now)
                && store.calls == meanwhile[callId := r.value]
    {
      if callId !in store.calls {
        return None;
      }
      var call := store.calls[callId];
      call := call.(endedAt := Some(now), leaseUntil := None);
      if failed {
        call := call.(status := Failed);
      } else {
        call := call.(status := Completed);
      }
      var last := |call.trace| - 1;
      if |call.trace| > 0 && call.trace[last].exitedAt == None {
        call := call.(trace := call.trace[last := call.trace[last].(exitedAt := Some(now))]);
      }
      store.OthersWrite(meanwhile);
      if !stored {
        return None;
      }
      store.SaveCall(call);
      return Some(call);
    }

    /** One inbound call per room: a repeated room returns the call it already has. One that
        was stored between the lookup and the save makes the save fail, by its unique key. */
    method CreateInboundCall(swarm: Graph, room: string, freshId: string, now: int,
                             meanwhile: map<string, Call>, stored: bool)
      returns (r: Result<Call, InboundError>)
      requires freshId !in meanwhile
      modifies store
      ensures r == Err(RoomRequired) <==> room == ""
      ensures room != "" && RoomTaken(old(store.calls), room) ==>
                r.Ok? && store.calls == old(store.calls) && r.value in store.calls.Values && r.value.room == room
      ensures room != "" && !RoomTaken(old(store.calls), room) ==>
                && (r == Err(EntryUnavailable) <==> AgentAt(swarm.nodes, swarm.entryNodeKey) == None)
                && (r == Err(SaveFailed) <==>
                      AgentAt(swarm.nodes, swarm.entryNodeKey).Some?
                          && (!stored || HasKey(meanwhile, "inbound:" + room)))
                && (r.Ok? ==> NewInboundCall(r.value) && r.value.id == freshId && r.value.snapshot == swarm
                              && r.value.room == room && r.value.idempotencyKey == "inbound:" + room
                              && r.value.scheduledAt == now && r.value.startedAt == Some(now)
                              && r.value.endedAt == None && r.value.trace[0].enteredAt == now
                              && r.value.status == Active && r.value.attempt == r.value.maxAttempts == 1
                              && store.calls == meanwhile[freshId := r.value])
      ensures r.Err? ==> store.calls == if r == Err(SaveFailed) then meanwhile else old(store.calls)
    {
      if room == "" {
        return Err(RoomRequired);
      }
      if existing: string :| existing in store.calls && store.calls[existing].room == room {
        return Ok(store.calls[existing]);
      }
      var agent := GraphAgentId(swarm, swarm.entryNodeKey);
      if agent == None {
        return Err(EntryUnavailable);
      }
      var call := Call(freshId, "", "inbound:" + room, Active, 1, 1, now, None, swarm, swarm.entryNodeKey,
                       [TraceEntry(swarm.entryNodeKey, agent.value, now, None, "")], room, Some(now), None);
      store.OthersWrite(meanwhile);
      if !stored || exists id :: id in store.calls && store.calls[id].idempotencyKey == call.idempotencyKey {
        return Err(SaveFailed);
      }
      store.SaveCall(call);
      return Ok(call);
    }

    /** The campaign gates of a claimed call: status, calling window, free lines. */
    method CheckGates(call: Call, now: int, answers: Answers, ghost s: State, ghost before: seq<Step>, ghost w: nat)
      returns (d: Decision, ghost run: seq<Step>)
      requires Follows(s, before, w, Checking(call), store.calls)
      requires forall k :: k in answers.campaigns ==> Limit(s, k) == answers.campaigns[k].maxConcurrency
      ensures Follows(s, run, w, PhaseFor(call, d), store.calls)
      ensures d == GateDecision(store.calls, call, now, answers)
    {
      hide PhaseFor, Enabled;
      var gate := GateOf(answers, call.campaignId, now);
      d := AfterGate(gate, now);
      ghost var read := ReadCampaign(w, gate, now);
      assert Enabled(Exec(s, before), read) by { EnabledDecision(Exec(s, before), read); }
      FollowMove(s, before, w, Checking(call), store.calls, read, d);
      run := before + [read];
      if d.GoCount? {
        assert PhaseFor(call, GoCount) == Counting(call) by { CountingPhase(call); }
        var active := store.CountActiveCampaignCalls(call.campaignId, call.id);
        ghost var count := CountActive(w, answers.countReadable, now);
        if !answers.countReadable {
          d := Fail(now);
        } else if active >= answers.campaigns[call.campaignId].maxConcurrency {
          d := PutBack(now + 30 * SECOND);
        } else {
          d := GoClear;
        }
        assert Enabled(Exec(s, run), count) by { EnabledDecision(Exec(s, run), count); }
        FollowMove(s, run, w, Counting(call), store.calls, count, d);
        run := run + [count];
      }
    }

    /** Dials a call that is past every gate and stores what came of it. */
    method DispatchCall(call: Call, now: int, answers: Answers, ghost s: State, ghost before: seq<Step>, ghost w: nat)
      returns (outcome: Outcome, ghost run: seq<Step>)
      requires Follows(s, before, w, Dialing(call), store.calls) && w !in s.workers
      modifies store
      ensures Legal(s, run) && Exec(s, run).calls == store.calls && Exec(s, run).workers == s.workers
      ensures Exec(s, run).limits == s.limits
      ensures var d := if answers.answered then RingUp(answers.room, now) else Fail(now);
              && outcome == OutcomeOf(d, answers.stored, false)
              && store.calls == if answers.stored
                  then old(store.calls)[PhaseFor(call, d).call.id := PhaseFor(call, d).call]
                                else old(store.calls)
      ensures outcome == if answers.answered && answers.stored then Dialled else Broken
      ensures answers.stored ==>
                && call.id in store.calls && store.calls == old(store.calls)[call.id := store.calls[call.id]]
                && if answers.answered then Rung(call, store.calls[call.id], answers.room, now)
                   else GivenBack(call, store.calls[call.id], now)
    {
      FailDispatchMeans(call, now);
      RingMeans(call, answers.room, now);
      hide Rung, GivenBack;
      ghost var dial := Dial(w, answers.answered, answers.room, now);
      var d := if answers.answered then RingUp(answers.room, now) else Fail(now);
      FollowMove(s, before, w, Dialing(call), store.calls, dial, d);
      run := before + [dial];
      if !answers.answered {
        run := SaveOutcome(FailDispatch(call, now), answers.stored, s, run, w);
        return Broken, run;
      }
      run := SaveOutcome(Ring(call, answers.room, now), answers.stored, s, run, w);
      return if answers.stored then Dialled else Broken, run;
    }

    /** One dispatch, undisturbed: the store it leaves is the store a run of the protocol
        by one dispatcher leaves. */
    method DispatchOne(now: int, answers: Answers, ghost s: State, ghost w: nat)
      returns (outcome: Outcome, ghost run: seq<Step>)
      requires s.calls == store.calls && w !in s.workers
      requires forall k :: k in answers.campaigns ==> Limit(s, k) == answers.campaigns[k].maxConcurrency
      modifies store
      ensures Legal(s, run) && Exec(s, run).calls == store.calls && Exec(s, run).workers == s.workers
      ensures Exec(s, run).limits == s.limits
      ensures Dispatches(old(store.calls), store.calls, now, answers, outcome)
    {
      hide PhaseFor, Exec, Legal, FinalDecision, OutcomeOf, Leaves, ClaimedAt, Claim;
      run := [];
      EmptyRun(s);
      var claimed := store.ClaimPendingCall(now);
      if claimed == None {
        return NothingEligible, run;
      }
      var call := claimed.value;
      ghost var id :| ClaimedFirst(s.calls, id, now) && call == ClaimedAt(s.calls[id], now)
          && store.calls == s.calls[id := call];
      ClaimIsClaimedAt(s.calls[id], now);
      FollowClaim(s, w, id, now);
      if s.calls[id].id == id {
        DispatchLeaves(s.calls, id, now, answers);
      }
      outcome, run := Settle(call, now, answers, s, [ClaimNext(w, id, now)], w);
      assert DispatchOf(s.calls, id, now, answers) == (store.calls, outcome);
    }

    /** Takes a claimed call through the gates, if it is a campaign call, and dials it. */
    method Settle(call: Call, now: int, answers: Answers, ghost s: State, ghost before: seq<Step>, ghost w: nat)
      returns (outcome: Outcome, ghost run: seq<Step>)
      requires Follows(s, before, w, if call.campaignId == "" then Cleared(call) else Checking(call), store.calls)
      requires w !in s.workers
      requires forall k :: k in answers.campaigns ==> Limit(s, k) == answers.campaigns[k].maxConcurrency
      modifies store
      ensures Legal(s, run) && Exec(s, run).calls == store.calls && Exec(s, run).workers == s.workers
      ensures Exec(s, run).limits == s.limits
      ensures var d := FinalDecision(old(store.calls), call, now, answers);
              var saved := PhaseFor(call, d).call;
              && outcome == OutcomeOf(d, answers.stored, WantsAbsent(old(store.calls), call, now, answers))
              && store.calls == if answers.stored then old(store.calls)[saved.id := saved] else old(store.calls)
    {
      hide PhaseFor, Enabled, Exec, Legal, GateDecision, FailDispatch;
      run := before;
      if call.campaignId != "" {
        var d: Decision;
        d, run := CheckGates(call, now, answers, s, run, w);
        PhaseMeaning(call, d);
        if !d.GoClear? {
          run := SaveOutcome(PhaseFor(call, d).call, answers.stored, s, run, w);
          if d.Fail? {
            return if LookUp(answers, call.campaignId) == Absent then NothingEligible else Broken, run;
          }
          return if answers.stored then NothingEligible else Broken, run;
        }
      }
      ghost var read := ReadSwarm(w, answers.swarm == Present, now);
      var d := if answers.swarm == Present then GoDial else Fail(now);
      assert Enabled(Exec(s, run), read) by { EnabledDecision(Exec(s, run), read); }
      FollowMove(s, run, w, Cleared(call), store.calls, read, d);
      run := run + [read];
      PhaseMeaning(call, d);
      if answers.swarm != Present {
        run := SaveOutcome(FailDispatch(call, now), answers.stored, s, run, w);
        return if answers.swarm == Absent then NothingEligible else Broken, run;
      }
      outcome, run := DispatchCall(call, now, answers, s, run, w);
    }

    /** Dispatches until the bounded limit is reached, nothing is eligible, or one dispatch
        fails; a deferred or cancelled call, or one whose campaign or swarm does not exist,
        ends the batch too, without an error. */
    method DispatchBatch(limit: int, nows: seq<int>, answers: seq<Answers>, ghost s: State, ghost w: nat)
      returns (dispatched: nat, ok: bool, ghost run: seq<Step>, ghost stores: seq<map<string, Call>>)
      requires s.calls == store.calls && w !in s.workers && |answers| == |nows| == 10
      requires forall a, k :: a in answers && k in a.campaigns ==> Limit(s, k) == a.campaigns[k].maxConcurrency
      modifies store
      ensures Legal(s, run) && Exec(s, run).calls == store.calls && Exec(s, run).workers == s.workers
      ensures stores != [] && stores[0] == old(store.calls) && stores[|stores| - 1] == store.calls
      ensures dispatched <= Bound(limit)
          && |stores| == if dispatched == Bound(limit) then dispatched + 1 else dispatched + 2
      ensures forall i :: 0 <= i < dispatched ==> Dispatches(stores[i], stores[i + 1], nows[i], answers[i], Dialled)
      ensures dispatched == Bound(limit) ==> ok
      ensures dispatched < Bound(limit) ==>
                Dispatches(stores[dispatched], stores[dispatched + 1], nows[dispatched], answers[dispatched],
                           if ok then NothingEligible else Broken)
    {
      hide Exec, Legal, Dispatches;
      var bound := if limit < 1 then 1 else if limit > 10 then 10 else limit;
      dispatched, run, stores := 0, [], [store.calls];
      EmptyRun(s);
      while dispatched < bound
        invariant dispatched <= bound
        invariant Legal(s, run) && Exec(s, run).calls == store.calls
        invariant Exec(s, run).workers == s.workers && Exec(s, run).limits == s.limits
        invariant |stores| == dispatched + 1 && stores[0] == old(store.calls) && stores[dispatched] == store.calls
        invariant forall i :: 0 <= i < dispatched ==> Dispatches(stores[i], stores[i + 1], nows[i], answers[i], Dialled)
      {
        ghost var t := Exec(s, run);
        assert answers[dispatched] in answers;
        assert forall k :: k in answers[dispatched].campaigns ==> Limit(t, k) == Limit(s, k);
        var outcome;
        ghost var more;
        outcome, more := DispatchOne(nows[dispatched], answers[dispatched], t, w);
        ConcatLegal(s, run, more);
        run := run + more;
        stores := stores + [store.calls];
        match outcome
        case NothingEligible => return dispatched, true, run, stores;
        case Broken => return dispatched, false, run, stores;
        case Dialled => dispatched := dispatched + 1;
      }
      ok := true;
    }

    /** A direct call is stored as being dispatched and dialled at once; a repeated key
        returns the call it already has, even one that was stored between the lookup and the
        save. `meanwhile` is what the collection has become by then. */
    method TriggerCall(key: string, swarm: Graph, freshId: string, now: int, answers: Answers,
                       meanwhile: map<string, Call>, firstStored: bool, ghost s: State, ghost w: nat)
      returns (r: Triggered, ghost run: seq<Step>)
      requires s.calls == meanwhile && w !in s.workers && freshId !in meanwhile
      modifies store
      ensures HasKey(old(store.calls), "direct:" + key) ==>
                && r.Existing? && r.call in store.calls.Values && r.call.idempotencyKey == "direct:" + key
                && store.calls == old(store.calls)
      ensures !HasKey(old(store.calls), "direct:" + key) ==>
                && Legal(s, run) && Exec(s, run).calls == store.calls
                && Exec(s, run).workers == s.workers && Exec(s, run).limits == s.limits
      ensures !HasKey(old(store.calls), "direct:" + key) ==>
                if HasKey(meanwhile, "direct:" + key) then
                  && r.Existing? && r.call in meanwhile.Values && r.call.idempotencyKey == "direct:" + key
                  && store.calls == meanwhile
                else if !firstStored then r == NotStored && store.calls == meanwhile
                else
                  var c := DirectCall(freshId, key, swarm, now);
                  var d := if answers.answered then RingUp(answers.room, now) else Fail(now);
                  && NewDirectCall(c) && c.idempotencyKey == "direct:" + key && c.snapshot == swarm
                  && c.status == Dispatching && c.attempt == c.maxAttempts == 1 && c.campaignId == ""
                  && c.scheduledAt == now && c.room == "" && c.startedAt == None && c.endedAt == None
                  && store.calls == meanwhile[freshId := if answers.stored then PhaseFor(c, d).call else c]
                  && (answers.stored && answers.answered ==> Rung(c, store.calls[freshId], answers.room, now))
                  && (answers.stored && !answers.answered ==>
                        store.calls[freshId] == c.(status := Failed, endedAt := Some(now)))
                  && r == if answers.answered && answers.stored then DialAccepted(freshId) else DialFailed(freshId)
    {
      hide Exec, Legal, PhaseFor, OutcomeOf, Rung, GivenBack;
      run := [];
      EmptyRun(s);
      OutcomeMeaning(answers.room, now, answers.stored);
      var idempotencyKey := "direct:" + key;
      if existing: string :| existing in store.calls && store.calls[existing].idempotencyKey == idempotencyKey {
        return Existing(store.calls[existing]), run;
      }
      var call := DirectCall(freshId, key, swarm, now);
      store.OthersWrite(meanwhile);
      if existing: string :| existing in store.calls && store.calls[existing].idempotencyKey == idempotencyKey {
        return Existing(store.calls[existing]), run;
      }
      if !firstStored {
        return NotStored, run;
      }
      var outcome;
      outcome, run := DialDirect(call, now, answers, s, w);
      if answers.stored && !answers.answered {
        DirectGivenBack(call, store.calls[freshId], now);
      }
      r := if outcome == Dialled then DialAccepted(freshId) else DialFailed(freshId);
    }

    /** Stores a new direct call and dials it. */
    method DialDirect(call: Call, now: int, answers: Answers, ghost s: State, ghost w: nat)
      returns (outcome: Outcome, ghost run: seq<Step>)
      requires s.calls == store.calls && w !in s.workers
      requires NewDirectCall(call) && call.id !in s.calls && !KeyTaken(s, call.idempotencyKey)
      modifies store
      ensures Legal(s, run) && Exec(s, run).calls == store.calls && Exec(s, run).workers == s.workers
      ensures Exec(s, run).limits == s.limits
      ensures var d := if answers.answered then RingUp(answers.room, now) else Fail(now);
              && outcome == OutcomeOf(d, answers.stored, false)
              && store.calls == old(store.calls)[call.id := if answers.stored then PhaseFor(call, d).call else call]
      ensures answers.stored ==>
                if answers.answered then Rung(call, store.calls[call.id], answers.room, now)
                else GivenBack(call, store.calls[call.id], now)
    {
      hide Exec, Legal, Enabled, Rung, GivenBack;
      FollowTrigger(s, w, call);
      store.SaveCall(call);
      PhaseKeepsId(call, if answers.answered then RingUp(answers.room, now) else Fail(now));
      outcome, run := DispatchCall(call, now, answers, s, [Trigger(w, call)], w);
    }

    /** One pending call per valid target, in their order. */
    method CallsFor(campaignId: string, graph: Graph, maxAttempts: int, targets: seq<Target>, freshIds: seq<string>,
                    now: int)
      returns (batch: seq<Call>, invalid: nat)
      requires maxAttempts >= 1 && |freshIds| == |targets|
      requires forall i, j :: 0 <= i < j < |freshIds| ==> freshIds[i] != freshIds[j]
      ensures |batch| + invalid == |targets| && invalid == Undialable(targets)
      ensures forall j :: 0 <= j < |batch| ==> batch[j].id in freshIds
      ensures forall j :: 0 <= j < |batch| ==> CallFor(batch[j], campaignId, graph, maxAttempts, now, targets)
      ensures forall j, k :: 0 <= j < k < |batch| ==> batch[j].id != batch[k].id
      ensures forall j :: 0 <= j < |targets| && targets[j].dialable ==> Covers(batch, TargetKey(campaignId, targets[j]))
    {
      hide CallFor, Covers;
      batch, invalid := [], 0;
      for i := 0 to |targets|
        invariant |batch| + invalid == i && invalid == Undialable(targets[..i])
        invariant forall j :: 0 <= j < |batch| ==> batch[j].id in freshIds[..i]
        invariant forall j :: 0 <= j < |batch| ==> CallFor(batch[j], campaignId, graph, maxAttempts, now, targets)
        invariant forall j, k :: 0 <= j < k < |batch| ==> batch[j].id != batch[k].id
        invariant forall j :: 0 <= j < i && targets[j].dialable ==> Covers(batch, TargetKey(campaignId, targets[j]))
      {
        var target := targets[i];
        assert targets[..i + 1][..i] == targets[..i] && freshIds[..i + 1] == freshIds[..i] + [freshIds[i]];
        if !target.dialable {
          invalid := invalid + 1;
        } else {
          var call := Call(freshIds[i], campaignId, TargetKey(campaignId, target), Pending, 0, maxAttempts, now, None,
                           graph, graph.entryNodeKey, [], "", None, None);
          CallForTarget(call, campaignId, graph, maxAttempts, now, targets, i);
          CoversMore(batch, call);
          batch := batch + [call];
        }
      }
      assert targets[..|targets|] == targets && freshIds[..|freshIds|] == freshIds;
    }

    /** Stores one pending call per new valid target; the report accounts for every target. */
    method ScheduleCampaign(campaignId: string, campaign: Campaign, swarm: Graph, entry: string, maxAttempts: int,
                            targets: seq<Target>, freshIds: seq<string>, now: int)
      returns (r: Result<Report, ScheduleError>)
      requires maxAttempts >= 1 && |freshIds| == |targets|
      requires forall i :: 0 <= i < |freshIds| ==> freshIds[i] !in store.calls
      requires forall i, j :: 0 <= i < j < |freshIds| ==> freshIds[i] != freshIds[j]
      modifies store
      ensures r == Err(BadTargetCount) <==> |targets| == 0 || |targets| > 500
      ensures r.Err? <==> |targets| == 0 || |targets| > 500 || campaign.status == Closed
      ensures r.Err? ==> store.calls == old(store.calls)
      ensures r.Ok? ==>
                && r.value.received == |targets|
                && r.value.scheduled + r.value.duplicates + r.value.invalid == r.value.received
                && r.value.invalid == Undialable(targets)
                && r.value.scheduled == |store.calls| - |old(store.calls)|
                && (forall id :: id in old(store.calls) ==>
                    id in store.calls && store.calls[id] == old(store.calls)[id])
                && (forall i :: 0 <= i < |targets| && targets[i].dialable ==>
                    HasKey(store.calls, TargetKey(campaignId, targets[i])))
                && (forall id :: id in store.calls && id !in old(store.calls) ==>
                      CallFor(store.calls[id], campaignId, swarm.(entryNodeKey := entry), maxAttempts, now, targets))
    {
      if |targets| == 0 || |targets| > 500 {
        return Err(BadTargetCount);
      }
      if campaign.status == Closed {
        return Err(CampaignClosed);
      }
      var graph := swarm.(entryNodeKey := entry);
      var batch, invalid := CallsFor(campaignId, graph, maxAttempts, targets, freshIds, now);
      InsertAllKeeps(store.calls, batch);
      InsertAllCovers(store.calls, batch);
      InsertAllOrigin(store.calls, batch);
      var inserted := store.InsertCalls(batch);
      forall i | 0 <= i < |targets| && targets[i].dialable
        ensures HasKey(store.calls, TargetKey(campaignId, targets[i]))
      {
        assert Covers(batch, TargetKey(campaignId, targets[i]));
      }
      InsertedAtMost(old(store.calls), batch);
      return Ok(Report(|targets|, inserted, |batch| - inserted, invalid));
    }

    /** Replaces the stored document, or fails to. */
    method SaveOutcome(c: Call, stored: bool, ghost s: State, ghost before: seq<Step>, ghost w: nat)
      returns (ghost run: seq<Step>)
      requires Follows(s, before, w, Saving(c), store.calls) && w !in s.workers
      modifies store
      ensures Legal(s, run) && Exec(s, run).calls == store.calls && Exec(s, run).workers == s.workers
      ensures Exec(s, run).limits == s.limits
      ensures store.calls == if stored then old(store.calls)[c.id := c] else old(store.calls)
    {
      FollowSave(s, before, w, Saving(c), store.calls, stored);
      run := before + [Save(w, stored)];
      if stored {
        store.SaveCall(c);
      }
    }
  }
}
