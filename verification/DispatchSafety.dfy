/** What the actions on one call keep as long as a dispatcher and a request never hold it at
    once: its holder, its attempts and its place among the calls past the gate; and what they
    keep as long as two requests do not hold it either. */
module DispatchSafety {
  import opened SwarmGraph
  import opened Calls
  import opened DispatchProtocol
  import opened OneCall
  import opened DispatchOverlaps
  import opened Wrappers

  predicate ApartIn(v: View, a: Action) {
    (a.Look? ==> v.holders == map[]) && (a.Take? ==> v.requests == map[])
  }

  predicate AloneIn(v: View, a: Action) {
    ApartIn(v, a) && (a.Look? ==> v.requests == map[])
  }

  lemma ApartSeen(s: State, step: Step, id: string)
    requires Enabled(s, step)
    ensures Apart(s, step, id) ==> ApartIn(ViewOf(s, id), ActionOf(s, step, id))
    ensures Alone(s, step, id) ==> AloneIn(ViewOf(s, id), ActionOf(s, step, id))
  {
    ActionKinds(s, step, id);
    hide ActionOf, Enabled, Edited, Accepts;
  }

  /** A call that somebody holds is stored. */
  lemma HeldIsStored(v: View)
    requires RootedView(v)
    ensures v.holders != map[] || v.requests != map[] || v.cleared || v.ended ==> v.doc.Some?
  {
  }

  // ---------------------------------------------------------------- one dispatcher at a time

  /** A dispatcher's own copy against the stored document: until it saves, nobody else
      has touched the document. */
  ghost predicate HeldSound(stored: Call, cleared: bool, p: Phase) {
    && stored.status == Dispatching
    && (if p.Saving? then SavesOver(stored, p.call) else stored == p.call)
    && (p.Checking? || p.Counting? ==> p.call.campaignId != "" && !cleared)
    && (p.Cleared? || p.Dialing? || p.call.status == Ringing ==> cleared)
  }

  /** What a dispatcher's save may change. */
  ghost predicate SavesOver(stored: Call, next: Call) {
    && (next.status == Pending || next.status == Ringing || next.status == Failed || next.status == Cancelled)
    && HandoffsIn(next.trace) == HandoffsIn(stored.trace)
  }

  /** While a dispatcher holds the call, nobody else does. */
  ghost predicate OneHolder(v: View) {
    && (forall w, x :: w in v.holders && x in v.holders ==> w == x)
    && (v.holders == map[] || v.requests == map[])
  }

  /** The open requests that do not end the call agree with each other on its status, and
      with what is stored unless that has ended. */
  ghost predicate Agree(v: View)
    requires v.doc.Some?
  {
    && (forall r :: r in v.requests && !v.requests[r].next.status.Terminal() ==>
          v.requests[r].next.status == v.doc.value.status || v.doc.value.status.Terminal())
    && (forall q, r :: q in v.requests && r in v.requests
                       && !v.requests[q].next.status.Terminal() && !v.requests[r].next.status.Terminal() ==>
                         v.requests[q].next.status == v.requests[r].next.status)
  }

  /** A call past the gate occupies a line, and one that rings passed the gate and has not
      ended since, unless it was brought back after it had ended. */
  ghost predicate ClearedSound(v: View)
    requires v.doc.Some?
  {
    && (v.cleared ==> v.doc.value.status.Occupies())
    && (v.doc.value.status == Ringing ==> v.cleared || v.ended)
    && (forall r :: r in v.requests && v.requests[r].next.status == Ringing ==> v.cleared || v.ended)
  }

  ghost predicate HeldView(v: View) {
    v.doc.Some? ==>
      && OneHolder(v) && Agree(v) && ClearedSound(v)
      && forall w :: w in v.holders ==> HeldSound(v.doc.value, v.cleared, v.holders[w])
  }

  lemma HeldTake(v: View, w: nat, now: int)
    requires v.doc.Some? && HeldView(v) && v.doc.value.status == Pending && v.requests == map[]
    ensures HeldView(Took(v, w, now))
  {
    WaitsUnheld(v);
  }

  lemma WaitsUnheld(v: View)
    requires v.doc.Some? && HeldView(v) && v.doc.value.status != Dispatching
    ensures v.holders == map[]
  {
    if w :| w in v.holders {
      assert HeldSound(v.doc.value, v.cleared, v.holders[w]);
    }
  }

  lemma PhaseSound(stored: Call, cleared: bool, p: Phase, d: Decision)
    requires HeldSound(stored, cleared, p) && Allowed(p, d)
    ensures HeldSound(stored, cleared || d.GoClear?, PhaseFor(p.call, d))
  {
    if d.RingUp? {
      RingKeepsTrace(p.call, d.room, d.now);
    }
    hide Ring, HandoffsIn, TraceSound;
  }

  lemma HeldDecide(v: View, w: nat, d: Decision)
    requires v.doc.Some? && HeldView(v) && w in v.holders && Allowed(v.holders[w], d)
    ensures HeldView(Decided(v, w, d))
  {
    assert HeldSound(v.doc.value, v.cleared, v.holders[w]);
    PhaseSound(v.doc.value, v.cleared, v.holders[w], d);
    hide PhaseFor, Allowed, SavesOver, Tallied;
  }

  lemma HeldSave(v: View, w: nat)
    requires v.doc.Some? && HeldView(v) && w in v.holders && v.holders[w].Saving?
    ensures HeldView(Saved(v, w))
  {
    assert HeldSound(v.doc.value, v.cleared, v.holders[w]);
    assert v.holders - {w} == map[];
  }

  lemma HeldLook(v: View, r: nat, next: Call)
    requires v.doc.Some? && HeldView(v) && v.holders == map[]
    requires HandedOff(v.doc.value, next) || Closed(v.doc.value, next)
    ensures HeldView(Looked(v, r, next))
  {
    hide TraceSound, HandoffsIn, HeldSound;
  }

  /** A request saves, over whatever other requests have made of the call meanwhile. */
  lemma HeldRewrite(v: View, r: nat)
    requires v.doc.Some? && HeldView(v) && r in v.requests
    ensures HeldView(Rewritten(v, r))
  {
    hide HeldSound, Redirected;
  }

  lemma HeldNext(v: View, a: Action)
    requires RootedView(v) && HeldView(v) && Possible(v, a) && ApartIn(v, a)
    ensures HeldView(Next(v, a))
  {
    hide HandoffsIn, TraceSound, HandedOff, Closed, Took, Decided, Saved, Looked, Rewritten, HeldSound;
    match a
    case ArriveHeld(w, c) => HeldArrival(w, c);
    case Take(w, now) => HeldTake(v, w, now);
    case Decide(w, d) => HeldDecide(v, w, d);
    case Store(w) => HeldSave(v, w);
    case Look(r, next) => HeldLook(v, r, next);
    case Replace(r) => HeldRewrite(v, r);
    case _ => hide PhaseRooted, RequestRooted;
  }

  lemma HeldArrival(w: nat, c: Call)
    requires NewDirectCall(c)
    ensures HeldView(UNKNOWN.(doc := Some(c), holders := map[w := Dialing(c)], cleared := true))
  {
  }

  // ---------------------------------------------------------------- attempts

  /** A call against its tally: no more dials than attempts and no more attempts than
      allowed. The attempts of a waiting call count its failed dispatches and nothing else,
      and a waiting call has no lease. */
  ghost predicate CallBooks(c: Call, t: Tally) {
    && 1 <= c.maxAttempts && 0 <= c.attempt <= c.maxAttempts
    && t.dials <= c.attempt
    && (c.status == Pending ==>
          c.attempt < c.maxAttempts && c.leaseUntil == None && c.attempt == t.failures && t.dials <= t.failures)
  }

  ghost predicate PhaseBooks(p: Phase, t: Tally) {
    && CallBooks(p.call, t)
    && (!p.Saving? ==> p.call.attempt == t.failures + 1 && t.dials <= t.failures && !p.call.status.Terminal())
  }

  ghost predicate BookedView(v: View) {
    v.doc.Some? ==>
      && CallBooks(v.doc.value, v.tally)
      && (forall w :: w in v.holders ==> PhaseBooks(v.holders[w], v.tally))
      && (forall r :: r in v.requests ==> CallBooks(v.requests[r].next, v.tally))
  }

  lemma DecisionBooks(p: Phase, d: Decision, t: Tally)
    requires PhaseBooks(p, t) && Allowed(p, d)
    ensures PhaseBooks(PhaseFor(p.call, d), Tallied(t, p, d))
    ensures CallBooks(p.call, Tallied(t, p, d))
  {
    hide AgentAt;
  }

  lemma ArrivalBooks(c: Call)
    requires NewCampaignCall(c) || NewDirectCall(c) || NewInboundCall(c)
    ensures CallBooks(c, Tally(0, 0, 0))
    ensures c.status == Dispatching ==> PhaseBooks(Dialing(c), Tally(0, 0, 0))
  {
  }

  lemma ClaimBooks(c: Call, t: Tally, now: int)
    requires CallBooks(c, t) && c.status == Pending
    ensures PhaseBooks(Claimed(c, now), t) && CallBooks(Claim(c, now), t)
  {
  }

  lemma EventBooks(c: Call, next: Call, t: Tally)
    requires CallBooks(c, t) && (HandedOff(c, next) || Closed(c, next))
    ensures CallBooks(next, t)
  {
    hide TraceSound, HandoffsIn;
  }

  lemma BooksRedirected(t: Tally)
    ensures forall c :: CallBooks(c, t) ==> CallBooks(c, Redirected(t))
    ensures forall p :: PhaseBooks(p, t) ==> PhaseBooks(p, Redirected(t))
  {
  }

  /** Only a sole holder changes the tally of attempts, so all other copies stay in line with
      it; a request changes no attempt, so its document fits whatever was saved meanwhile. */
  lemma BookedNext(v: View, a: Action)
    requires RootedView(v) && HeldView(v) && BookedView(v) && Possible(v, a)
    ensures BookedView(Next(v, a))
  {
    HeldIsStored(v);
    hide RootedView, HandedOff, Closed, Claim, Claimed, PhaseFor, Allowed, Tallied, Redirected, CallBooks, PhaseBooks;
    hide Took, Decided, Saved, Looked, Rewritten;
    match a
    case Arrive(c) => BookedArrival(v, a);
    case ArriveHeld(w, c) => BookedArrival(v, a);
    case Take(w, now) =>
      ClaimBooks(v.doc.value, v.tally, now);
      WaitsUnheld(v);
      BookedTake(v, w, now);
    case Decide(w, d) => BookedDecide(v, w, d);
    case Store(w) => SavedBooks(v, w);
    case Look(r, next) => BookedLook(v, r, next);
    case Replace(r) => BookedRewrite(v, r);
    case _ => hide HeldView;
  }

  lemma BookedLook(v: View, r: nat, next: Call)
    requires v.doc.Some? && BookedView(v) && (HandedOff(v.doc.value, next) || Closed(v.doc.value, next))
    ensures BookedView(Looked(v, r, next))
  {
    EventBooks(v.doc.value, next, v.tally);
    hide CallBooks, PhaseBooks, HandedOff, Closed;
  }

  lemma BookedRewrite(v: View, r: nat)
    requires v.doc.Some? && BookedView(v) && r in v.requests
    ensures BookedView(Rewritten(v, r))
  {
    BooksRedirected(v.tally);
    hide CallBooks, PhaseBooks, Redirected;
  }

  lemma BookedArrival(v: View, a: Action)
    requires RootedView(v) && (a.Arrive? || a.ArriveHeld?) && Possible(v, a)
    ensures BookedView(Next(v, a))
  {
    ArrivalBooks(a.call);
    hide CallBooks, PhaseBooks;
  }

  lemma BookedTake(v: View, w: nat, now: int)
    requires v.doc.Some? && BookedView(v) && v.holders == map[]
    requires CallBooks(Claim(v.doc.value, now), v.tally) && PhaseBooks(Claimed(v.doc.value, now), v.tally)
    ensures BookedView(Took(v, w, now))
  {
    hide CallBooks, PhaseBooks, Claim, Claimed;
  }

  lemma BookedDecide(v: View, w: nat, d: Decision)
    requires HeldView(v) && BookedView(v) && v.doc.Some? && w in v.holders && Allowed(v.holders[w], d)
    ensures BookedView(Decided(v, w, d))
  {
    assert HeldSound(v.doc.value, v.cleared, v.holders[w]);
    assert v.holders[w].call == v.doc.value && v.holders[w := PhaseFor(v.holders[w].call, d)].Keys == {w};
    DecisionBooks(v.holders[w], d, v.tally);
    hide CallBooks, PhaseBooks, PhaseFor, Tallied, HeldSound, Agree, ClearedSound;
  }

  lemma SavedBooks(v: View, w: nat)
    requires BookedView(v) && v.doc.Some? && w in v.holders
    ensures BookedView(Saved(v, w))
  {
    assert PhaseBooks(v.holders[w], v.tally);
    assert CallBooks(v.holders[w].call, v.tally);
    hide CallBooks, PhaseBooks;
  }

  // ---------------------------------------------------------------- failing for good

  /** A document that dispatchers alone have made: failed after the last attempt, any other
      before it. */
  ghost predicate FailedLast(c: Call, t: Tally) {
    && (c.status == Failed ==> t.failures == c.maxAttempts)
    && (c.status != Failed && c.status != Dispatching ==> t.failures < c.maxAttempts && c.status != Completed)
  }

  /** No request holds the call, and no dispatch has ended or is about to end it too soon or too
      late. */
  ghost predicate FailsLast(v: View) {
    && v.requests == map[]
    && (v.doc.Some? ==>
          && FailedLast(v.doc.value, v.tally)
          && forall w :: w in v.holders && v.holders[w].Saving? ==> FailedLast(v.holders[w].call, v.tally))
  }

  lemma DecisionFailsLast(p: Phase, d: Decision, t: Tally)
    requires PhaseBooks(p, t) && Allowed(p, d) && p.call.status == Dispatching
    ensures FailedLast(PhaseFor(p.call, d).call, Tallied(t, p, d))
    ensures PhaseFor(p.call, d).Saving? || PhaseFor(p.call, d).call == p.call
  {
    hide AgentAt;
  }

  lemma FailsNext(v: View, a: Action)
    requires RootedView(v) && HeldView(v) && BookedView(v) && FailsLast(v) && Possible(v, a) && !a.Look?
    ensures FailsLast(Next(v, a))
  {
    HeldIsStored(v);
    hide RootedView, HandedOff, Closed, Agree, ClearedSound;
    match a
    case Arrive(c) => NotStored(v) by { assert RootedView(v); }
    case ArriveHeld(w, c) => NotStored(v) by { assert RootedView(v); }
    case Decide(w, d) =>
      assert HeldSound(v.doc.value, v.cleared, v.holders[w]) && PhaseBooks(v.holders[w], v.tally);
      DecisionFailsLast(v.holders[w], d, v.tally);
      hide PhaseFor, Tallied, PhaseBooks, FailedLast, Allowed;
      FailsDecided(v, w, d);
    case _ => hide PhaseFor, Tallied, PhaseBooks, CallBooks;
  }

  /** The call is being dispatched, so what is stored is not compared. */
  lemma FailsDecided(v: View, w: nat, d: Decision)
    requires FailsLast(v) && v.doc.Some? && v.doc.value.status == Dispatching && OneHolder(v) && w in v.holders
    requires var q := PhaseFor(v.holders[w].call, d);
             q.Saving? ==> FailedLast(q.call, Tallied(v.tally, v.holders[w], d))
    ensures FailsLast(Decided(v, w, d))
  {
    hide PhaseFor, Tallied;
  }

  // ---------------------------------------------------------------- ringing calls

  /** A ringing call has passed the gate and not ended since. */
  predicate RingsCleared(v: View) {
    v.doc.Some? && v.doc.value.status == Ringing ==> v.cleared
  }

  /** A request brings a call that has ended back to ringing. */
  predicate RingsAgainIn(v: View, a: Action) {
    && a.Replace? && a.request in v.requests && v.requests[a.request].next.status == Ringing
    && v.doc.Some? && v.doc.value.status.Terminal()
  }

  lemma RingingNext(v: View, a: Action)
    requires RootedView(v) && HeldView(v) && RingsCleared(v) && Possible(v, a)
    ensures RingsCleared(Next(v, a)) <==> !RingsAgainIn(v, a)
  {
    HeldIsStored(v);
    hide RootedView, HandoffsIn, TraceSound, HandedOff, Closed, PhaseFor, Tallied, Redirected;
    match a
    case Store(w) => assert HeldSound(v.doc.value, v.cleared, v.holders[w]);
    case _ => hide HeldSound;
  }

  // ---------------------------------------------------------------- one request at a time

  /** No two requests hold the call, each has read what is stored, and a call that ended is
      stored as ended. */
  ghost predicate SingleView(v: View) {
    && (forall q, r :: q in v.requests && r in v.requests ==> q == r)
    && (forall r :: r in v.requests ==>
          && v.doc == Some(v.requests[r].read)
          && (v.requests[r].next.status.Terminal() || v.requests[r].next.status == v.requests[r].read.status))
    && (v.ended ==> v.doc.Some? && v.doc.value.status.Terminal())
  }

  lemma SingleNext(v: View, a: Action)
    requires RootedView(v) && HeldView(v) && SingleView(v) && Possible(v, a) && AloneIn(v, a)
    ensures SingleView(Next(v, a))
  {
    HeldIsStored(v);
    hide RootedView, Agree, ClearedSound, HandoffsIn, TraceSound, PhaseFor, Tallied, Redirected, Claim, Claimed;
    match a
    case Store(w) => assert HeldSound(v.doc.value, v.cleared, v.holders[w]);
    case Replace(r) =>
      hide HeldView;
      assert v.requests - {r} == map[];
    case Look(r, next) =>
      hide HeldView;
      SingleLook(v, r, next);
    case Arrive(_) => assert v == UNKNOWN by { NotStored(v); }
    case ArriveHeld(_, _) => assert v == UNKNOWN by { NotStored(v); }
    case _ => hide HeldSound;
  }

  lemma NotStored(v: View)
    requires RootedView(v) && v.doc == None
    ensures v == UNKNOWN
  {
  }

  lemma SingleLook(v: View, r: nat, next: Call)
    requires SingleView(v) && v.doc.Some? && v.requests == map[]
    requires HandedOff(v.doc.value, next) || Closed(v.doc.value, next)
    ensures SingleView(Looked(v, r, next))
  {
    hide HandoffsIn, TraceSound;
  }

  /** Then no save loses a handoff or brings a call back. */
  lemma SingleLosesNothing(v: View, a: Action)
    requires HeldView(v) && SingleView(v) && Possible(v, a)
    ensures !LosesIn(v, a) && !RingsAgainIn(v, a)
  {
    hide Agree, ClearedSound;
    match a
    case Store(w) =>
      if v.doc.Some? {
        assert HeldSound(v.doc.value, v.cleared, v.holders[w]);
      }
    case _ => hide HeldSound;
  }

  /** Then whoever holds an ended call would end it. */
  lemma SingleIsOver(v: View)
    requires v.doc.Some? && v.doc.value.status.Terminal() && HeldView(v) && SingleView(v)
    ensures Kept(v, HasEnded, LetsEnd)
  {
  }

  // ---------------------------------------------------------------- line limits

  function ClearedOf(s: State, campaignId: string): set<string> {
    set id | id in s.cleared && id in s.calls && s.calls[id].campaignId == campaignId
  }

  /** A campaign never has more calls past the gate than its MaxConcurrency. */
  ghost predicate WithinLimit(s: State, k: string) {
    |ClearedOf(s, k)| > 0 ==> |ClearedOf(s, k)| <= Limit(s, k)
  }

  /** A dispatcher and a request do not hold the same call of the campaign. */
  ghost predicate HeldCampaign(s: State, k: string) {
    forall id :: id in s.calls && s.calls[id].campaignId == k ==> HeldView(ViewOf(s, id))
  }

  lemma SubsetSize<T>(s: set<T>, t: set<T>)
    requires s <= t
    ensures |s| <= |t|
  {
    if s != t {
      assert t == s + (t - s);
    }
  }

  /** Claiming comes before counting: a call that passes the gate was itself among the
      occupied lines that every other dispatcher counts. */
  lemma LimitsAtGate(s: State, w: nat, now: int, k: string)
    requires Rooted(s) && HeldCampaign(s, k) && WithinLimit(s, k) && k != ""
    requires w in s.workers && s.workers[w].Counting? && s.workers[w].call.campaignId == k
    ensures WithinLimit(Move(s, w, AfterCount(s, s.workers[w].call, true, now)), k)
  {
    var c := s.workers[w].call;
    var d := AfterCount(s, c, true, now);
    HolderIsOut(s, w, k);
    ClearedMove(s, w, d, k);
    hide HeldCampaign, Rooted, ActiveOf, ClearedOf, Move;
    if d.GoClear? {
      ClearedOccupies(s, k, c.id);
      SubsetSize(ClearedOf(s, k), ActiveOf(s.calls, k, c.id));
    }
  }

  lemma ClearedMove(s: State, w: nat, d: Decision, k: string)
    requires w in s.workers
    requires var id := s.workers[w].call.id; id in s.calls && s.calls[id].campaignId == k
    ensures ClearedOf(Move(s, w, d), k) ==
            ClearedOf(s, k) + (if d.GoClear? then {s.workers[w].call.id} else {})
    ensures Move(s, w, d).limits == s.limits
  {
    hide PhaseFor, Tallied;
  }

  /** A call that is being counted for is stored and not past the gate. */
  lemma HolderIsOut(s: State, w: nat, k: string)
    requires Rooted(s) && HeldCampaign(s, k) && w in s.workers && s.workers[w].Counting?
    requires s.workers[w].call.campaignId == k
    ensures var id := s.workers[w].call.id; id in s.calls && s.calls[id].campaignId == k && id !in s.cleared
  {
    var id := s.workers[w].call.id;
    var v := ViewOf(s, id);
    assert RootedView(v) && w in v.holders;
    assert PhaseRooted(v.doc.value, v.holders[w]);
    assert HeldSound(v.doc.value, v.cleared, v.holders[w]);
  }

  lemma ClearedOccupies(s: State, k: string, id: string)
    requires HeldCampaign(s, k) && id !in s.cleared
    ensures ClearedOf(s, k) <= ActiveOf(s.calls, k, id)
  {
    hide OneHolder, Agree, HeldSound, HoldersOf, RequestsOf;
    forall i | i in ClearedOf(s, k)
      ensures i in ActiveOf(s.calls, k, id)
    {
      assert HeldView(ViewOf(s, i));
    }
  }

  /** Only a count adds a call of a campaign to those past the gate. */
  lemma ClearedStep(s: State, step: Step, k: string)
    requires Rooted(s) && Enabled(s, step) && k != "" && WithoutCount(s, step, k)
    ensures ClearedOf(After(s, step), k) <= ClearedOf(s, k)
  {
    var t := After(s, step);
    forall id | id in ClearedOf(t, k)
      ensures id in ClearedOf(s, k)
    {
      ViewStep(s, step, id);
      ViewsClear(s, step, k, id);
    }
  }

  predicate WithoutCount(s: State, step: Step, k: string)
    requires Enabled(s, step)
  {
    Decides(step) && DecisionOf(s, step).GoClear? ==> s.workers[step.worker].call.campaignId != k
  }

  lemma ViewsClear(s: State, step: Step, k: string, id: string)
    requires Rooted(s) && Enabled(s, step) && SeenAs(s, step, id) && k != "" && WithoutCount(s, step, k)
    requires id in ClearedOf(After(s, step), k)
    ensures id in ClearedOf(s, k)
  {
    var v, a := ViewOf(s, id), ActionOf(s, step, id);
    if a.Decide? {
      DecideSeen(s, step, id);
    }
    assert RootedView(v);
    hide ActionOf, DecisionOf, Rooted, Enabled;
    ClearedSeen(After(s, step), k, id);
    hide After, ViewOf, Next, RootedView;
    ClearedNext(v, a, k);
    ClearedSeen(s, k, id);
  }

  lemma DecideSeen(s: State, step: Step, id: string)
    requires Enabled(s, step) && ActionOf(s, step, id).Decide?
    ensures Decides(step) && step.worker in s.workers
    ensures ActionOf(s, step, id) == Decide(step.worker, DecisionOf(s, step))
    ensures step.worker in ViewOf(s, id).holders && ViewOf(s, id).holders[step.worker] == s.workers[step.worker]
  {
    hide Edited, DecisionOf;
  }

  ghost predicate ClearedIn(v: View, k: string) {
    v.doc.Some? && v.cleared && v.doc.value.campaignId == k
  }

  lemma ClearedSeen(s: State, k: string, id: string)
    ensures id in ClearedOf(s, k) <==> ClearedIn(ViewOf(s, id), k)
  {
  }

  lemma ClearedNext(v: View, a: Action, k: string)
    requires RootedView(v) && Possible(v, a) && k != ""
    requires a.Decide? && a.decision.GoClear? ==> v.holders[a.worker].call.campaignId != k
    requires ClearedIn(Next(v, a), k)
    ensures ClearedIn(v, k)
  {
    RootedNext(v, a);
    if a.Decide? {
      assert PhaseRooted(v.doc.value, v.holders[a.worker]);
    }
    hide TraceSound, HandoffsIn, HandedOff, Closed, PhaseFor, RequestRooted, Redirected, Tallied;
  }
}
