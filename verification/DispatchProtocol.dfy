/** Campaign dispatch as an interleaving protocol. Every store call and every answer from
    the outside is one atomic step. Any number of dispatchers take turns in any order, and
    so do requests to hand a call off or to complete it: a request first reads the call and
    later replaces the whole stored document. */
module DispatchProtocol {
  import opened SwarmGraph
  import opened Calls
  import opened Wrappers

  /** Where one dispatcher stands inside DispatchOne. */
  datatype Phase =
    | Checking(call: Call)            // claimed; the campaign has not been read
    | Counting(call: Call)            // the campaign runs and its window is open
    | Cleared(call: Call)             // past every gate; the swarm has not been read
    | Dialing(call: Call)             // about to ask the gateway to dial
    | Saving(call: Call)              // about to replace the stored document by this one

  /** What reading the campaign of a claimed call may say. */
  datatype Gate = Unreadable | Ended | NotRunning | OutsideWindow(next: int) | Open

  /** What a dispatcher does next with the call it holds. */
  datatype Decision =
    | GoCount | GoClear | GoDial
    | PutBack(at: int) | Abandon(now: int) | Fail(now: int) | RingUp(room: string, now: int)

  predicate Allowed(p: Phase, d: Decision) {
    match p
    case Checking(_) => d.GoCount? || d.PutBack? || d.Abandon? || d.Fail?
    case Counting(_) => d.GoClear? || d.PutBack? || d.Fail?
    case Cleared(_) => d.GoDial? || d.Fail?
    case Dialing(_) => d.RingUp? || d.Fail?
    case Saving(_) => false
  }

  datatype Step =
    | Schedule(call: Call)
    | Trigger(worker: nat, call: Call)
    | Inbound(call: Call)
    | ClaimNext(worker: nat, id: string, now: int)
    | ReadCampaign(worker: nat, gate: Gate, now: int)
    | CountActive(worker: nat, readable: bool, now: int)
    | ReadSwarm(worker: nat, readable: bool, now: int)
    | Dial(worker: nat, answered: bool, room: string, now: int)
    | Save(worker: nat, stored: bool)
    | Crash(worker: nat)
    | ReadHandoff(request: nat, id: string, from: string, to: string, reason: string, now: int)
    | ReadCompletion(request: nat, id: string, failed: bool, now: int)
    | SaveRequest(request: nat, stored: bool)

  /** An open request: the call as it was read, and the document about to replace it. A
      completion is about to save an ended call, a handoff never is. */
  datatype Request = Request(read: Call, next: Call)

  /** What has happened to one call so far. */
  datatype Tally = Tally(dials: nat, failures: nat, handoffs: nat)

  /** `calls` is the collection, `workers` the dispatchers that are not idle, `requests` the
      open requests, `limits` the campaigns' MaxConcurrency. The rest is history: the calls
      past the gate that have neither ended nor been put back since, the calls of which an
      ended document was ever stored, and the tally of every call. */
  datatype State = State(
    calls: map<string, Call>, workers: map<nat, Phase>, requests: map<nat, Request>, limits: map<string, int>,
    cleared: set<string>, ended: set<string>, tallies: map<string, Tally>)

  function TallyOf(m: map<string, Tally>, id: string): Tally {
    if id in m then m[id] else Tally(0, 0, 0)
  }

  /** Some dispatcher holds the call. */
  predicate InFlight(s: State, id: string) {
    exists w :: w in s.workers && s.workers[w].call.id == id
  }

  /** Some open request has read the call. */
  predicate Requested(s: State, id: string) {
    exists r :: r in s.requests && s.requests[r].next.id == id
  }

  function ActiveOf(calls: map<string, Call>, campaignId: string, excluded: string): set<string> {
    set id | id in calls && id != excluded
             && calls[id].campaignId == campaignId && calls[id].status.Occupies()
  }

  predicate Claimable(c: Call, now: int) {
    && c.status == Pending && c.scheduledAt <= now
    && (c.leaseUntil == None || c.leaseUntil.value <= now)
  }

  predicate KeyTaken(s: State, key: string) {
    exists id :: id in s.calls && s.calls[id].idempotencyKey == key
  }

  // ---------------------------------------------------------------- steps

  predicate Enabled(s: State, step: Step) {
    match step
    case Schedule(c) => NewCampaignCall(c) && c.id !in s.calls && !KeyTaken(s, c.idempotencyKey)
    case Trigger(w, c) =>
      w !in s.workers && NewDirectCall(c) && c.id !in s.calls && !KeyTaken(s, c.idempotencyKey)
    case Inbound(c) => NewInboundCall(c) && c.id !in s.calls && !KeyTaken(s, c.idempotencyKey)
    case ClaimNext(w, id, now) =>
      && w !in s.workers && id in s.calls
      && Claimable(s.calls[id], now)
    case ReadCampaign(w, _, _) => w in s.workers && s.workers[w].Checking?
    case CountActive(w, _, _) => w in s.workers && s.workers[w].Counting?
    case ReadSwarm(w, _, _) => w in s.workers && s.workers[w].Cleared?
    case Dial(w, _, _, _) => w in s.workers && s.workers[w].Dialing?
    case Save(w, _) => w in s.workers && s.workers[w].Saving?
    case Crash(w) => w in s.workers
    case ReadHandoff(r, id, _, _, _, _) => r !in s.requests && id in s.calls && Accepts(s.calls[id], step)
    case ReadCompletion(r, id, _, _) => r !in s.requests && id in s.calls
    case SaveRequest(r, _) => r in s.requests
  }

  function Limit(s: State, campaignId: string): int {
    if campaignId in s.limits then s.limits[campaignId] else 0
  }

  function Insert(s: State, c: Call): State {
    s.(calls := s.calls[c.id := c])
  }

  function AfterTrigger(s: State, w: nat, c: Call): State {
    s.(calls := s.calls[c.id := c], workers := s.workers[w := Dialing(c)], cleared := s.cleared + {c.id})
  }

  function AfterClaim(s: State, w: nat, id: string, now: int): State
    requires id in s.calls
  {
    var c := Claim(s.calls[id], now);
    var free := c.campaignId == "";
    s.(calls := s.calls[id := c],
       workers := s.workers[w := if free then Cleared(c) else Checking(c)],
       cleared := if free then s.cleared + {id} else s.cleared)
  }

  function AfterGate(gate: Gate, now: int): Decision {
    match gate
    case Unreadable => Fail(now)
    case Ended => Abandon(now)
    case NotRunning => PutBack(now + MINUTE)
    case OutsideWindow(next) => PutBack(next)
    case Open => GoCount
  }

  function AfterCount(s: State, c: Call, readable: bool, now: int): Decision {
    if !readable then Fail(now)
    else if |ActiveOf(s.calls, c.campaignId, c.id)| >= Limit(s, c.campaignId) then PutBack(now + 30 * SECOND)
    else GoClear
  }

  /** Steps in which a dispatcher learns something and decides. */
  predicate Decides(step: Step) {
    step.ReadCampaign? || step.CountActive? || step.ReadSwarm? || step.Dial?
  }

  function DecisionOf(s: State, step: Step): Decision
    requires Decides(step) && step.worker in s.workers
  {
    match step
    case ReadCampaign(w, gate, now) => AfterGate(gate, now)
    case CountActive(w, readable, now) => AfterCount(s, s.workers[w].call, readable, now)
    case ReadSwarm(w, readable, now) => if readable then GoDial else Fail(now)
    case Dial(w, answered, room, now) => if answered then RingUp(room, now) else Fail(now)
  }

  /** Steps in which a call is stored for the first time. */
  predicate Arrives(step: Step) {
    step.Schedule? || step.Inbound? || step.Trigger?
  }

  /** Steps in which a request reads a call. */
  predicate Reads(step: Step) {
    step.ReadHandoff? || step.ReadCompletion?
  }

  predicate Accepts(c: Call, step: Step) {
    step.ReadHandoff? ==> Handoff(c, step.from, step.to, step.reason, step.now).Ok?
  }

  /** The document that a request is about to save once it has read `c`. */
  function Edited(c: Call, step: Step): Call
    requires Reads(step) && Accepts(c, step)
  {
    if step.ReadHandoff? then Handoff(c, step.from, step.to, step.reason, step.now).value
    else Complete(c, step.failed, step.now)
  }

  lemma EditedMeans(c: Call, step: Step)
    requires Reads(step) && Accepts(c, step)
    ensures step.ReadHandoff? ==> HandedOff(c, Edited(c, step))
    ensures step.ReadCompletion? ==> Closed(c, Edited(c, step))
  {
    if step.ReadHandoff? {
      HandoffMeans(c, step.from, step.to, step.reason, step.now);
    } else {
      CompleteMeans(c, step.failed, step.now);
    }
  }

  lemma DecisionAllowed(s: State, step: Step)
    requires Enabled(s, step) && Decides(step)
    ensures Allowed(s.workers[step.worker], DecisionOf(s, step))
    ensures After(s, step) == Move(s, step.worker, DecisionOf(s, step))
  {
  }

  function PhaseFor(c: Call, d: Decision): Phase {
    match d
    case GoCount => Counting(c)
    case GoClear => Cleared(c)
    case GoDial => Dialing(c)
    case PutBack(at) => Saving(Defer(c, at))
    case Abandon(now) => Saving(CancelUndispatched(c, now))
    case Fail(now) => Saving(FailDispatch(c, now))
    case RingUp(room, now) => Saving(Ring(c, room, now))
  }

  function Tallied(t: Tally, p: Phase, d: Decision): Tally {
    t.(dials := if p.Dialing? then t.dials + 1 else t.dials,
       failures := if d.Fail? then t.failures + 1 else t.failures)
  }

  /** A dispatcher acts on a decision about the call it holds. */
  function Move(s: State, w: nat, d: Decision): State
    requires w in s.workers
  {
    var p := s.workers[w];
    s.(workers := s.workers[w := PhaseFor(p.call, d)],
       cleared := if d.GoClear? then s.cleared + {p.call.id} else s.cleared,
       tallies := s.tallies[p.call.id := Tallied(TallyOf(s.tallies, p.call.id), p, d)])
  }

  function EndedWith(ended: set<string>, c: Call): set<string> {
    if c.status.Terminal() then ended + {c.id} else ended
  }

  function AfterSave(s: State, w: nat, stored: bool): State
    requires w in s.workers
  {
    if stored then Written(s, w, s.workers[w].call) else AfterCrash(s, w)
  }

  function Written(s: State, w: nat, c: Call): State {
    s.(calls := s.calls[c.id := c], workers := s.workers - {w},
       cleared := if c.status == Ringing then s.cleared else s.cleared - {c.id},
       ended := EndedWith(s.ended, c))
  }

  function AfterCrash(s: State, w: nat): State {
    s.(workers := s.workers - {w})
  }

  function AfterRead(s: State, r: nat, id: string, next: Call): State
    requires id in s.calls
  {
    s.(requests := s.requests[r := Request(s.calls[id], next)])
  }

  /** A request replaces the stored document, whatever it has become since the read. */
  function AfterRequest(s: State, r: nat, stored: bool): State
    requires r in s.requests
  {
    if stored then Replaced(s, r, s.requests[r].next) else s.(requests := s.requests - {r})
  }

  function Replaced(s: State, r: nat, c: Call): State {
    s.(calls := s.calls[c.id := c], requests := s.requests - {r},
       cleared := if c.status.Terminal() then s.cleared - {c.id} else s.cleared,
       ended := EndedWith(s.ended, c),
       tallies := if c.status.Terminal() then s.tallies
                  else s.tallies[c.id := Redirected(TallyOf(s.tallies, c.id))])
  }

  function Redirected(t: Tally): Tally {
    t.(handoffs := t.handoffs + 1)
  }

  function After(s: State, step: Step): State
    requires Enabled(s, step)
  {
    match step
    case Schedule(c) => Insert(s, c)
    case Trigger(w, c) => AfterTrigger(s, w, c)
    case Inbound(c) => Insert(s, c)
    case ClaimNext(w, id, now) => AfterClaim(s, w, id, now)
    case Save(w, stored) => AfterSave(s, w, stored)
    case Crash(w) => AfterCrash(s, w)
    case ReadHandoff(r, id, _, _, _, _) => AfterRead(s, r, id, Edited(s.calls[id], step))
    case ReadCompletion(r, id, _, _) => AfterRead(s, r, id, Edited(s.calls[id], step))
    case SaveRequest(r, stored) => AfterRequest(s, r, stored)
    case _ => Move(s, step.worker, DecisionOf(s, step))
  }

  lemma AfterReads(s: State, step: Step)
    requires Enabled(s, step) && Reads(step)
    ensures Accepts(s.calls[step.id], step)
    ensures After(s, step) == AfterRead(s, step.request, step.id, Edited(s.calls[step.id], step))
  {
    hide Edited, AfterRead;
  }

  /** Any run of the system. */
  ghost predicate Legal(s: State, run: seq<Step>)
    decreases |run|
  {
    run != [] ==> Enabled(s, run[0]) && Legal(After(s, run[0]), run[1..])
  }

  ghost function Exec(s: State, run: seq<Step>): State
    requires Legal(s, run)
    decreases |run|
  {
    if run == [] then s else Exec(After(s, run[0]), run[1..])
  }

  ghost predicate Start(s: State) {
    && s.calls == map[] && s.workers == map[] && s.requests == map[]
    && s.cleared == {} && s.ended == {} && s.tallies == map[]
  }

  // ---------------------------------------------------------------- who may overlap

  /** The step does not make a dispatcher and a request hold call `id` at once. */
  predicate Apart(s: State, step: Step, id: string) {
    && (Reads(step) && step.id == id ==> !InFlight(s, id))
    && (step.ClaimNext? && step.id == id ==> !Requested(s, id))
  }

  /** Nor does it make two requests hold it. */
  predicate Alone(s: State, step: Step, id: string) {
    Apart(s, step, id) && (Reads(step) && step.id == id ==> !Requested(s, id))
  }

  /** In this run a dispatcher and a request never hold the call at once. */
  ghost predicate AllApart(s: State, run: seq<Step>, id: string)
    requires Legal(s, run)
    decreases |run|
  {
    run != [] ==> Apart(s, run[0], id) && AllApart(After(s, run[0]), run[1..], id)
  }

  /** In this run the call is never held twice at once, by dispatchers or by requests. */
  ghost predicate AllAlone(s: State, run: seq<Step>, id: string)
    requires Legal(s, run)
    decreases |run|
  {
    run != [] ==> Alone(s, run[0], id) && AllAlone(After(s, run[0]), run[1..], id)
  }

  // ---------------------------------------------------------------- putting runs together

  lemma EmptyRun(s: State)
    ensures Legal(s, []) && Exec(s, []) == s
    ensures forall id :: AllApart(s, [], id)
  {
  }

  lemma PrependLegal(s: State, step: Step, rest: seq<Step>)
    requires Enabled(s, step) && Legal(After(s, step), rest)
    ensures Legal(s, [step] + rest) && Exec(s, [step] + rest) == Exec(After(s, step), rest)
    ensures forall id :: Apart(s, step, id) && AllApart(After(s, step), rest, id) ==> AllApart(s, [step] + rest, id)
  {
    hide After, Enabled, Apart;
    assert ([step] + rest)[0] == step && ([step] + rest)[1..] == rest;
  }

  lemma AppendLegal(s: State, run: seq<Step>, step: Step)
    requires Legal(s, run) && Enabled(Exec(s, run), step)
    ensures Legal(s, run + [step]) && Exec(s, run + [step]) == After(Exec(s, run), step)
    ensures forall id :: AllApart(s, run, id) && Apart(Exec(s, run), step, id) ==> AllApart(s, run + [step], id)
  {
    hide After, Enabled, Apart, Legal, Exec, AllApart;
    var t := Exec(s, run);
    EmptyRun(After(t, step));
    PrependLegal(t, step, []);
    assert [step] + [] == [step];
    ConcatLegal(s, run, [step]);
  }

  lemma {:induction false} ConcatLegal(s: State, run: seq<Step>, more: seq<Step>)
    requires Legal(s, run) && Legal(Exec(s, run), more)
    ensures Legal(s, run + more) && Exec(s, run + more) == Exec(Exec(s, run), more)
    ensures forall id :: AllApart(s, run, id) && AllApart(Exec(s, run), more, id) ==> AllApart(s, run + more, id)
    decreases |run|
  {
    hide After, Enabled, Apart;
    if run == [] {
      assert run + more == more;
    } else {
      ConcatLegal(After(s, run[0]), run[1..], more);
      assert (run + more)[0] == run[0] && (run + more)[1..] == run[1..] + more;
    }
  }
}
