/** The dispatch protocol as a single call sees it: whatever dispatchers and requests do to
    other calls leaves the view of this one as it is, and every step that concerns it is one
    of a few actions on its document, its holders and its open requests. */
module OneCall {
  import opened SwarmGraph
  import opened Calls
  import opened DispatchProtocol
  import opened Wrappers

  /** The stored document, the dispatchers that hold the call, the requests that have read
      it, and its history. */
  datatype View = View(doc: Option<Call>, holders: map<nat, Phase>, requests: map<nat, Request>,
                       cleared: bool, ended: bool, tally: Tally)

  const UNKNOWN := View(None, map[], map[], false, false, Tally(0, 0, 0))

  datatype Action =
    | Stay
    | Arrive(call: Call)
    | ArriveHeld(worker: nat, call: Call)
    | Take(worker: nat, now: int)
    | Decide(worker: nat, decision: Decision)
    | Store(worker: nat)
    | Leave(worker: nat)
    | Look(request: nat, next: Call)
    | Replace(request: nat)
    | GiveUp(request: nat)

  ghost predicate Possible(v: View, a: Action) {
    match a
    case Stay => true
    case Arrive(c) => v.doc == None && (NewCampaignCall(c) || NewInboundCall(c))
    case ArriveHeld(w, c) => v.doc == None && w !in v.holders && NewDirectCall(c)
    case Take(w, _) => w !in v.holders && v.doc.Some? && v.doc.value.status == Pending
    case Decide(w, d) => w in v.holders && Allowed(v.holders[w], d)
    case Store(w) => w in v.holders && v.holders[w].Saving?
    case Leave(w) => w in v.holders
    case Look(r, next) =>
      r !in v.requests && v.doc.Some? && (HandedOff(v.doc.value, next) || Closed(v.doc.value, next))
    case Replace(r) => r in v.requests
    case GiveUp(r) => r in v.requests
  }

  function Claimed(c: Call, now: int): Phase {
    if c.campaignId == "" then Cleared(Claim(c, now)) else Checking(Claim(c, now))
  }

  function Took(v: View, w: nat, now: int): View
    requires v.doc.Some?
  {
    var c := v.doc.value;
    v.(doc := Some(Claim(c, now)), holders := v.holders[w := Claimed(c, now)],
       cleared := v.cleared || c.campaignId == "")
  }

  function Decided(v: View, w: nat, d: Decision): View
    requires w in v.holders
  {
    var p := v.holders[w];
    v.(holders := v.holders[w := PhaseFor(p.call, d)], cleared := v.cleared || d.GoClear?,
       tally := Tallied(v.tally, p, d))
  }

  function Saved(v: View, w: nat): View
    requires w in v.holders
  {
    var c := v.holders[w].call;
    v.(doc := Some(c), holders := v.holders - {w}, cleared := v.cleared && c.status == Ringing,
       ended := v.ended || c.status.Terminal())
  }

  function Looked(v: View, r: nat, next: Call): View
    requires v.doc.Some?
  {
    v.(requests := v.requests[r := Request(v.doc.value, next)])
  }

  function Rewritten(v: View, r: nat): View
    requires r in v.requests
  {
    var c := v.requests[r].next;
    v.(doc := Some(c), requests := v.requests - {r}, cleared := v.cleared && !c.status.Terminal(),
       ended := v.ended || c.status.Terminal(), tally := if c.status.Terminal() then v.tally else Redirected(v.tally))
  }

  ghost function Next(v: View, a: Action): View
    requires Possible(v, a)
  {
    match a
    case Stay => v
    case Arrive(c) => v.(doc := Some(c))
    case ArriveHeld(w, c) => v.(doc := Some(c), holders := v.holders[w := Dialing(c)], cleared := true)
    case Take(w, now) => Took(v, w, now)
    case Decide(w, d) => Decided(v, w, d)
    case Store(w) => Saved(v, w)
    case Leave(w) => v.(holders := v.holders - {w})
    case Look(r, next) => Looked(v, r, next)
    case Replace(r) => Rewritten(v, r)
    case GiveUp(r) => v.(requests := v.requests - {r})
  }

  // ---------------------------------------------------------------- seeing one call

  function HoldersOf(workers: map<nat, Phase>, id: string): map<nat, Phase> {
    map w | w in workers && workers[w].call.id == id :: workers[w]
  }

  function RequestsOf(requests: map<nat, Request>, id: string): map<nat, Request> {
    map r | r in requests && requests[r].next.id == id :: requests[r]
  }

  function Stored(calls: map<string, Call>, id: string): Option<Call> {
    if id in calls then Some(calls[id]) else None
  }

  function ViewOf(s: State, id: string): View {
    View(Stored(s.calls, id), HoldersOf(s.workers, id), RequestsOf(s.requests, id),
         id in s.cleared, id in s.ended, TallyOf(s.tallies, id))
  }

  /** What a step does to call `id`. */
  function ActionOf(s: State, step: Step, id: string): Action
    requires Enabled(s, step)
  {
    match step
    case Schedule(c) => if c.id == id then Arrive(c) else Stay
    case Inbound(c) => if c.id == id then Arrive(c) else Stay
    case Trigger(w, c) => if c.id == id then ArriveHeld(w, c) else Stay
    case ClaimNext(w, i, now) => if i == id then Take(w, now) else Stay
    case Save(w, stored) => if s.workers[w].call.id != id then Stay else if stored then Store(w) else Leave(w)
    case Crash(w) => if s.workers[w].call.id == id then Leave(w) else Stay
    case ReadHandoff(r, i, _, _, _, _) => if i == id then Look(r, Edited(s.calls[i], step)) else Stay
    case ReadCompletion(r, i, _, _) => if i == id then Look(r, Edited(s.calls[i], step)) else Stay
    case SaveRequest(r, stored) =>
      if s.requests[r].next.id != id then Stay else if stored then Replace(r) else GiveUp(r)
    case _ => if s.workers[step.worker].call.id == id then Decide(step.worker, DecisionOf(s, step)) else Stay
  }

  /** Each call is stored under its own id. */
  ghost predicate Named(calls: map<string, Call>) {
    forall id :: id in calls ==> calls[id].id == id
  }

  lemma HoldersSet(workers: map<nat, Phase>, w: nat, p: Phase, id: string)
    requires w in workers ==> workers[w].call.id == p.call.id
    ensures HoldersOf(workers[w := p], id) ==
            if p.call.id == id then HoldersOf(workers, id)[w := p] else HoldersOf(workers, id)
  {
  }

  lemma HoldersDrop(workers: map<nat, Phase>, w: nat, id: string)
    ensures HoldersOf(workers - {w}, id) == HoldersOf(workers, id) - {w}
    ensures w in workers && workers[w].call.id != id ==> HoldersOf(workers - {w}, id) == HoldersOf(workers, id)
  {
  }

  lemma RequestsSet(requests: map<nat, Request>, r: nat, q: Request, id: string)
    requires r !in requests
    ensures RequestsOf(requests[r := q], id) ==
            if q.next.id == id then RequestsOf(requests, id)[r := q] else RequestsOf(requests, id)
  {
  }

  lemma RequestsDrop(requests: map<nat, Request>, r: nat, id: string)
    ensures RequestsOf(requests - {r}, id) == RequestsOf(requests, id) - {r}
    ensures r in requests && requests[r].next.id != id ==> RequestsOf(requests - {r}, id) == RequestsOf(requests, id)
  {
  }

  /** A decision changes one dispatcher's phase, never its call's identity. */
  lemma PhaseKeepsOrigin(c: Call, d: Decision)
    ensures SameOrigin(c, PhaseFor(c, d).call)
  {
    if d.RingUp? {
      RingKeepsTrace(c, d.room, d.now);
    }
    hide Ring;
  }

  lemma ViewMove(s: State, w: nat, d: Decision, id: string)
    requires w in s.workers
    ensures s.workers[w].call.id == id ==> ViewOf(Move(s, w, d), id) == Decided(ViewOf(s, id), w, d)
    ensures s.workers[w].call.id != id ==> ViewOf(Move(s, w, d), id) == ViewOf(s, id)
  {
    var p := s.workers[w];
    MoveMeans(s, w, d);
    PhaseKeepsOrigin(p.call, d);
    HoldersSet(s.workers, w, PhaseFor(p.call, d), id);
    hide PhaseFor, Tallied, Move;
  }

  lemma MoveMeans(s: State, w: nat, d: Decision)
    requires w in s.workers
    ensures var p, t := s.workers[w], Move(s, w, d);
            && t.calls == s.calls && t.requests == s.requests && t.ended == s.ended && t.limits == s.limits
            && t.workers == s.workers[w := PhaseFor(p.call, d)]
            && (forall id :: id in t.cleared <==> id in s.cleared || (d.GoClear? && id == p.call.id))
            && (forall id :: TallyOf(t.tallies, id) ==
                  if id == p.call.id then Tallied(TallyOf(s.tallies, id), p, d) else TallyOf(s.tallies, id))
  {
    hide PhaseFor, Tallied;
  }

  lemma RequestMeans(s: State, r: nat)
    requires r in s.requests
    ensures var t, c := AfterRequest(s, r, true), s.requests[r].next;
            && t.calls == s.calls[c.id := c] && t.requests == s.requests - {r}
            && t.workers == s.workers && t.limits == s.limits
            && forall id :: TallyOf(t.tallies, id) ==
                 if id == c.id && !c.status.Terminal() then Redirected(TallyOf(s.tallies, id))
                 else TallyOf(s.tallies, id)
  {
    hide Redirected;
  }

  lemma ViewSave(s: State, w: nat, id: string)
    requires w in s.workers
    ensures s.workers[w].call.id == id ==> ViewOf(AfterSave(s, w, true), id) == Saved(ViewOf(s, id), w)
    ensures s.workers[w].call.id != id ==> ViewOf(AfterSave(s, w, true), id) == ViewOf(s, id)
  {
    HoldersDrop(s.workers, w, id);
  }

  lemma ViewLeave(s: State, w: nat, id: string)
    requires w in s.workers
    ensures var left := ViewOf(s, id).(holders := ViewOf(s, id).holders - {w});
            && (s.workers[w].call.id == id ==> ViewOf(AfterCrash(s, w), id) == left)
            && (s.workers[w].call.id != id ==> ViewOf(AfterCrash(s, w), id) == ViewOf(s, id))
            && AfterSave(s, w, false) == AfterCrash(s, w)
  {
    HoldersDrop(s.workers, w, id);
  }

  lemma ViewClaim(s: State, w: nat, i: string, now: int, id: string)
    requires w !in s.workers && i in s.calls && s.calls[i].id == i
    ensures ViewOf(AfterClaim(s, w, i, now), id) == if i == id then Took(ViewOf(s, id), w, now) else ViewOf(s, id)
  {
    HoldersSet(s.workers, w, Claimed(s.calls[i], now), id);
  }

  lemma ViewTrigger(s: State, w: nat, c: Call, id: string)
    requires w !in s.workers
    ensures var v := ViewOf(s, id);
            ViewOf(AfterTrigger(s, w, c), id) ==
            if c.id == id then v.(doc := Some(c), holders := v.holders[w := Dialing(c)], cleared := true) else v
  {
    HoldersSet(s.workers, w, Dialing(c), id);
  }

  lemma ViewInsert(s: State, c: Call, id: string)
    ensures ViewOf(Insert(s, c), id) == if c.id == id then ViewOf(s, id).(doc := Some(c)) else ViewOf(s, id)
  {
  }

  lemma ViewRead(s: State, r: nat, i: string, next: Call, id: string)
    requires r !in s.requests && i in s.calls && next.id == i
    ensures ViewOf(AfterRead(s, r, i, next), id) == if i == id then Looked(ViewOf(s, id), r, next) else ViewOf(s, id)
  {
    RequestsSet(s.requests, r, Request(s.calls[i], next), id);
  }

  lemma ViewRequest(s: State, r: nat, id: string)
    requires r in s.requests
    ensures s.requests[r].next.id == id ==> ViewOf(AfterRequest(s, r, true), id) == Rewritten(ViewOf(s, id), r)
    ensures s.requests[r].next.id != id ==> ViewOf(AfterRequest(s, r, true), id) == ViewOf(s, id)
  {
    RequestsDrop(s.requests, r, id);
    hide Redirected;
  }

  lemma ViewGivenUp(s: State, r: nat, id: string)
    requires r in s.requests
    ensures var left := ViewOf(s, id).(requests := ViewOf(s, id).requests - {r});
            && (s.requests[r].next.id == id ==> ViewOf(AfterRequest(s, r, false), id) == left)
            && (s.requests[r].next.id != id ==> ViewOf(AfterRequest(s, r, false), id) == ViewOf(s, id))
  {
    RequestsDrop(s.requests, r, id);
  }

  lemma EditKeepsId(c: Call, d: Call)
    requires HandedOff(c, d) || Closed(c, d)
    ensures d.id == c.id
  {
  }

  /** The state after `step`, seen by call `id`, comes about by an action. */
  ghost predicate SeenAs(s: State, step: Step, id: string)
    requires Enabled(s, step)
  {
    var a := ActionOf(s, step, id);
    Possible(ViewOf(s, id), a) && ViewOf(After(s, step), id) == Next(ViewOf(s, id), a)
  }

  lemma LookAction(s: State, step: Step, id: string)
    requires Enabled(s, step) && Reads(step)
    ensures Accepts(s.calls[step.id], step) && step.request !in s.requests
    ensures ActionOf(s, step, id) ==
            if step.id == id then Look(step.request, Edited(s.calls[step.id], step)) else Stay
  {
    hide Handoff, Edited;
  }

  lemma LookNext(v: View, r: nat, next: Call)
    requires r !in v.requests && v.doc.Some? && (HandedOff(v.doc.value, next) || Closed(v.doc.value, next))
    ensures Possible(v, Look(r, next)) && Next(v, Look(r, next)) == Looked(v, r, next)
  {
    hide HandedOff, Closed;
  }

  lemma ReadIsLook(s: State, step: Step, id: string)
    requires Named(s.calls) && Enabled(s, step) && Reads(step)
    ensures SeenAs(s, step, id)
  {
    AfterReads(s, step);
    LookAction(s, step, id);
    hide After, Enabled, ActionOf;
    var c := s.calls[step.id];
    var next := Edited(c, step);
    EditedMeans(c, step);
    EditKeepsId(c, next);
    hide Edited, HandedOff, Closed, Accepts, HoldersOf, Looked, Reads;
    ViewRead(s, step.request, step.id, next, id);
    hide AfterRead;
    if step.id == id {
      LookNext(ViewOf(s, id), step.request, next);
    }
    hide ViewOf;
  }

  lemma MoveIsDecide(s: State, step: Step, id: string)
    requires Enabled(s, step) && Decides(step)
    ensures SeenAs(s, step, id)
  {
    DecisionAllowed(s, step);
    var w, d := step.worker, DecisionOf(s, step);
    assert ActionOf(s, step, id) == if s.workers[w].call.id == id then Decide(w, d) else Stay;
    hide ActionOf, After, Move, DecisionOf, Allowed, Decided, RequestsOf, Enabled, Decides;
    ViewMove(s, w, d, id);
    assert s.workers[w].call.id == id ==> w in ViewOf(s, id).holders && ViewOf(s, id).holders[w] == s.workers[w];
    hide ViewOf;
  }

  lemma ClaimIsTake(s: State, step: Step, id: string)
    requires Named(s.calls) && Enabled(s, step) && step.ClaimNext?
    ensures SeenAs(s, step, id)
  {
    ViewClaim(s, step.worker, step.id, step.now, id);
    hide AfterClaim, Took, RequestsOf;
  }

  lemma ArrivalIsSeen(s: State, step: Step, id: string)
    requires Enabled(s, step) && (step.Schedule? || step.Inbound? || step.Trigger?)
    ensures SeenAs(s, step, id)
  {
    hide NewDirectCall, NewCampaignCall, NewInboundCall, KeyTaken;
    if step.Trigger? {
      ViewTrigger(s, step.worker, step.call, id);
    } else {
      ViewInsert(s, step.call, id);
    }
    hide AfterTrigger, Insert, RequestsOf;
  }

  lemma SaveIsSeen(s: State, step: Step, id: string)
    requires Enabled(s, step) && (step.Save? || step.Crash?)
    ensures SeenAs(s, step, id)
  {
    ViewSave(s, step.worker, id);
    ViewLeave(s, step.worker, id);
    hide AfterSave, AfterCrash, Saved, RequestsOf;
  }

  lemma RequestIsSeen(s: State, step: Step, id: string)
    requires Enabled(s, step) && step.SaveRequest?
    ensures SeenAs(s, step, id)
  {
    ViewRequest(s, step.request, id);
    ViewGivenUp(s, step.request, id);
    hide AfterRequest, Rewritten, HoldersOf;
  }

  /** Every step of the protocol is, for each call, one possible action on the view of it. */
  lemma ViewStep(s: State, step: Step, id: string)
    requires Named(s.calls) && Enabled(s, step)
    ensures SeenAs(s, step, id)
  {
    hide SeenAs, Enabled;
    match step
    case ClaimNext(_, _, _) => ClaimIsTake(s, step, id);
    case Trigger(_, _) => ArrivalIsSeen(s, step, id);
    case Schedule(_) => ArrivalIsSeen(s, step, id);
    case Inbound(_) => ArrivalIsSeen(s, step, id);
    case Save(_, _) => SaveIsSeen(s, step, id);
    case Crash(_) => SaveIsSeen(s, step, id);
    case SaveRequest(_, _) => RequestIsSeen(s, step, id);
    case ReadHandoff(_, _, _, _, _, _) => ReadIsLook(s, step, id);
    case ReadCompletion(_, _, _, _) => ReadIsLook(s, step, id);
    case _ => MoveIsDecide(s, step, id);
  }

  /** Which steps are which actions on call `id`. */
  lemma ActionKinds(s: State, step: Step, id: string)
    requires Enabled(s, step)
    ensures var a := ActionOf(s, step, id);
            && (a.Arrive? || a.ArriveHeld? <==> Arrives(step) && step.call.id == id)
            && (a.Look? <==> Reads(step) && step.id == id)
            && (a.Take? <==> step.ClaimNext? && step.id == id)
            && (a.Store? <==> step.Save? && step.stored && s.workers[step.worker].call.id == id)
            && (a.Replace? <==> step.SaveRequest? && step.stored && s.requests[step.request].next.id == id)
            && (a.Arrive? || a.ArriveHeld? ==> a.call == step.call)
            && (a.Store? ==> a.worker == step.worker)
            && (a.Replace? ==> a.request == step.request)
            && (a.Look? ==> Accepts(s.calls[id], step) && a.next == Edited(s.calls[id], step))
  {
    hide DecisionOf, Edited, Handoff, Claimable, KeyTaken, NewDirectCall, NewCampaignCall, NewInboundCall;
  }
}
