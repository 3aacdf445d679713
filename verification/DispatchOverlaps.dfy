/** What holds of every run of the dispatch protocol, however dispatchers and requests
    overlap and overwrite each other's documents. */
module DispatchOverlaps {
  import opened SwarmGraph
  import opened Calls
  import opened DispatchProtocol
  import opened OneCall
  import opened Wrappers

  ghost predicate KeysUnique(calls: map<string, Call>) {
    forall i, j :: i in calls && j in calls && calls[i].idempotencyKey == calls[j].idempotencyKey ==> i == j
  }

  /** A copy of a stored call: of the same origin, with a trace that is sound in itself. */
  ghost predicate CopyOf(stored: Call, c: Call) {
    SameOrigin(stored, c) && TraceSound(c)
  }

  ghost predicate PhaseRooted(stored: Call, p: Phase) {
    CopyOf(stored, p.call) && (!p.Saving? ==> !p.call.status.Terminal())
  }

  /** An open request will save one handoff more than it has read, or none if it ends the
      call. */
  ghost predicate RequestRooted(stored: Call, q: Request) {
    && CopyOf(stored, q.next)
    && HandoffsIn(q.next.trace) == HandoffsIn(q.read.trace) + (if q.next.status.Terminal() then 0 else 1)
  }

  /** Of a call that is not stored nothing is known; every holder of one that is has a copy. */
  ghost predicate RootedView(v: View) {
    if v.doc == None then v == UNKNOWN
    else
      && TraceSound(v.doc.value)
      && (forall w :: w in v.holders ==> PhaseRooted(v.doc.value, v.holders[w]))
      && (forall r :: r in v.requests ==> RequestRooted(v.doc.value, v.requests[r]))
  }

  lemma NewIsSound(c: Call)
    requires NewCampaignCall(c) || NewDirectCall(c) || NewInboundCall(c)
    ensures TraceSound(c) && HandoffsIn(c.trace) == 0
  {
    if c.trace != [] {
      assert TraceKeys(c.trace) == [c.currentNodeKey];
    }
  }

  lemma DecisionKeepsCopy(stored: Call, p: Phase, d: Decision)
    requires PhaseRooted(stored, p) && Allowed(p, d)
    ensures PhaseRooted(stored, PhaseFor(p.call, d))
  {
    if d.RingUp? {
      RingKeepsTrace(p.call, d.room, d.now);
    }
    hide Ring;
  }

  /** Storing a copy leaves every other copy a copy. */
  lemma RootedStore(v: View, t: View, c: Call)
    requires RootedView(v) && v.doc.Some? && CopyOf(v.doc.value, c) && t.doc == Some(c)
    requires forall w :: w in t.holders ==> w in v.holders && t.holders[w] == v.holders[w]
    requires forall r :: r in t.requests ==> r in v.requests && t.requests[r] == v.requests[r]
    ensures RootedView(t)
  {
    hide TraceSound, HandoffsIn;
  }

  lemma RootedTake(v: View, w: nat, now: int)
    requires RootedView(v) && v.doc.Some? && v.doc.value.status == Pending
    ensures RootedView(Took(v, w, now)) && SameOrigin(v.doc.value, Claim(v.doc.value, now))
  {
    var c := Claim(v.doc.value, now);
    assert TraceSound(c);
    hide TraceSound, HandoffsIn;
    RootedStore(v, v.(doc := Some(c)), c);
  }

  lemma RootedLook(v: View, r: nat, next: Call)
    requires RootedView(v) && v.doc.Some? && (HandedOff(v.doc.value, next) || Closed(v.doc.value, next))
    ensures RootedView(Looked(v, r, next))
  {
    assert RequestRooted(v.doc.value, Request(v.doc.value, next)) by { hide TraceSound, HandoffsIn; }
    hide TraceSound, HandoffsIn, RequestRooted;
  }

  /** The stored call is never lost and what it was created with never changes. */
  ghost predicate Lasts(before: Option<Call>, after: Option<Call>) {
    before.Some? ==> after.Some? && SameOrigin(before.value, after.value)
  }

  lemma RootedNext(v: View, a: Action)
    requires RootedView(v) && Possible(v, a)
    ensures RootedView(Next(v, a)) && Lasts(v.doc, Next(v, a).doc)
  {
    hide HandoffsIn, TraceSound, HandedOff, Closed, PhaseFor;
    match a
    case Arrive(c) => NewIsSound(c);
    case ArriveHeld(w, c) => NewIsSound(c);
    case Take(w, now) =>
      hide Claim, Claimed;
      RootedTake(v, w, now);
    case Decide(w, d) => DecisionKeepsCopy(v.doc.value, v.holders[w], d);
    case Store(w) =>
      assert PhaseRooted(v.doc.value, v.holders[w]);
      RootedStore(v, Next(v, a), v.holders[w].call);
    case Look(r, next) =>
      hide Looked;
      RootedLook(v, r, next);
      assert Looked(v, r, next).doc == v.doc by { LookedOnly(v, r, next); }
    case Replace(r) =>
      assert RequestRooted(v.doc.value, v.requests[r]);
      RootedStore(v, Next(v, a), v.requests[r].next);
    case _ =>
  }

  lemma LookedOnly(v: View, r: nat, next: Call)
    requires v.doc.Some?
    ensures Looked(v, r, next).doc == v.doc
  {
  }

  // ---------------------------------------------------------------- all calls together

  ghost predicate Rooted(s: State) {
    && Named(s.calls) && KeysUnique(s.calls)
    && forall id :: RootedView(ViewOf(s, id))
  }

  /** No call is ever lost, and what a call was created with never changes. */
  ghost predicate Evolves(s: State, t: State) {
    && t.limits == s.limits
    && forall id :: id in s.calls ==> id in t.calls && SameOrigin(s.calls[id], t.calls[id])
  }

  /** A call that was not stored before a step is the one that arrives in it. */
  lemma OnlyArrivals(s: State, step: Step, id: string)
    requires RootedView(ViewOf(s, id)) && Named(s.calls) && Enabled(s, step)
    requires id !in s.calls && id in After(s, step).calls
    ensures Arrives(step) && step.call.id == id && After(s, step).calls[id] == step.call
  {
    ViewStep(s, step, id);
    ActionKinds(s, step, id);
    assert ViewOf(s, id) == UNKNOWN;
    hide After, RootedView, ActionOf, Enabled, Arrives, Edited, Accepts, Reads;
    UnknownNext(ActionOf(s, step, id));
    hide Next, Possible;
  }

  lemma UnknownNext(a: Action)
    requires Possible(UNKNOWN, a) && Next(UNKNOWN, a).doc.Some?
    ensures (a.Arrive? || a.ArriveHeld?) && Next(UNKNOWN, a).doc == Some(a.call)
  {
    hide NewCampaignCall, NewDirectCall, NewInboundCall;
  }

  lemma LimitsStay(s: State, step: Step)
    requires Enabled(s, step)
    ensures After(s, step).limits == s.limits
  {
    hide DecisionOf, Edited, PhaseFor, Tallied, KeyTaken, Accepts, Claimable, NewCampaignCall, NewDirectCall;
    hide NewInboundCall, EndedWith, Redirected;
  }

  lemma NamesStay(s: State, step: Step)
    requires Enabled(s, step) && Named(s.calls)
    ensures Named(After(s, step).calls)
  {
    hide DecisionOf, Edited, PhaseFor, Tallied, KeyTaken, Accepts, Claimable, NewCampaignCall, NewDirectCall;
    hide NewInboundCall, EndedWith, Redirected;
  }

  lemma RootedStep(s: State, step: Step)
    requires Rooted(s) && Enabled(s, step)
    ensures Rooted(After(s, step)) && Evolves(s, After(s, step))
  {
    var t := After(s, step);
    LimitsStay(s, step);
    NamesStay(s, step);
    forall id
      ensures RootedView(ViewOf(t, id)) && Lasts(Stored(s.calls, id), Stored(t.calls, id))
    {
      ViewStep(s, step, id);
      hide RootedView, Possible, Next, ActionOf, After, Enabled, Lasts, Stored;
      RootedNext(ViewOf(s, id), ActionOf(s, step, id));
    }
    OriginsStay(s, step);
    KeysStay(s, step);
    hide RootedView, After, Lasts, Enabled, ViewOf;
  }

  lemma OriginsStay(s: State, step: Step)
    requires Enabled(s, step)
    requires forall id :: Lasts(Stored(s.calls, id), Stored(After(s, step).calls, id))
    ensures forall id :: id in s.calls ==>
              id in After(s, step).calls && SameOrigin(s.calls[id], After(s, step).calls[id])
  {
    hide After, Enabled, SameOrigin;
    forall id | id in s.calls
      ensures id in After(s, step).calls && SameOrigin(s.calls[id], After(s, step).calls[id])
    {
      assert Lasts(Stored(s.calls, id), Stored(After(s, step).calls, id));
    }
  }

  lemma KeysStay(s: State, step: Step)
    requires Rooted(s) && Enabled(s, step)
    requires forall id :: id in s.calls ==>
               id in After(s, step).calls && SameOrigin(s.calls[id], After(s, step).calls[id])
    ensures KeysUnique(After(s, step).calls)
  {
    var t := After(s, step);
    assert Arrives(step) ==> !KeyTaken(s, step.call.idempotencyKey) by { hide DecisionOf, Edited; }
    hide After, Enabled, RootedView, ViewOf;
    forall i, j | i in t.calls && j in t.calls && t.calls[i].idempotencyKey == t.calls[j].idempotencyKey
      ensures i == j
    {
      if i !in s.calls {
        OnlyArrivals(s, step, i);
      }
      if j !in s.calls {
        OnlyArrivals(s, step, j);
      }
    }
  }

  lemma {:induction false} RootedRun(s: State, run: seq<Step>)
    requires Rooted(s) && Legal(s, run)
    ensures Rooted(Exec(s, run)) && Evolves(s, Exec(s, run))
    decreases |run|
  {
    hide Rooted, After, Enabled;
    if run != [] {
      RootedStep(s, run[0]);
      RootedRun(After(s, run[0]), run[1..]);
    }
  }

  lemma StartIsRooted(s: State)
    requires Start(s)
    ensures Rooted(s) && forall id :: ViewOf(s, id) == UNKNOWN
  {
    forall id
      ensures ViewOf(s, id) == UNKNOWN
    {
      assert HoldersOf(s.workers, id) == map[] && RequestsOf(s.requests, id) == map[];
    }
  }

  // ---------------------------------------------------------------- what survives every overlap

  /** A scheduled target is stored at most once, in every run. */
  lemma ScheduledOnce(s: State, run: seq<Step>, i: string, j: string)
    requires Start(s) && Legal(s, run) && i in Exec(s, run).calls && j in Exec(s, run).calls
    requires Exec(s, run).calls[i].idempotencyKey == Exec(s, run).calls[j].idempotencyKey
    ensures i == j
  {
    StartIsRooted(s);
    RootedRun(s, run);
    hide ViewOf, RootedView;
  }

  /** In every run, whatever overwrites what, each stored trace is a staffed path of the
      frozen graph; on a sound snapshot it repeats no node and has at most |nodes| entries. */
  lemma TraceAlwaysSound(s: State, run: seq<Step>, id: string)
    requires Start(s) && Legal(s, run) && id in Exec(s, run).calls
    ensures var c := Exec(s, run).calls[id];
            && TraceSound(c)
            && (SnapshotSound(c.snapshot) ==> Distinct(TraceKeys(c.trace)) && |c.trace| <= |c.snapshot.nodes|)
  {
    StartIsRooted(s);
    RootedRun(s, run);
    var c := Exec(s, run).calls[id];
    assert RootedView(ViewOf(Exec(s, run), id));
    hide TraceSound, SnapshotSound;
    if SnapshotSound(c.snapshot) {
      TraceNeverRepeats(c);
    }
  }

  // ---------------------------------------------------------------- handoffs counted

  /** One trace entry per accepted handoff after the first entry. */
  predicate Counted(s: State, id: string) {
    id in s.calls ==> TallyOf(s.tallies, id).handoffs == HandoffsIn(s.calls[id].trace)
  }

  /** The step replaces a document of call `id` whose trace is not as long as the one that
      the saver has read: a request has recorded a handoff in between. */
  predicate Loses(s: State, step: Step, id: string) {
    match step
    case SaveRequest(r, true) =>
      && r in s.requests && s.requests[r].next.id == id && id in s.calls
      && HandoffsIn(s.requests[r].read.trace) != HandoffsIn(s.calls[id].trace)
    case Save(w, true) =>
      && w in s.workers && s.workers[w].call.id == id && id in s.calls
      && HandoffsIn(s.workers[w].call.trace) != HandoffsIn(s.calls[id].trace)
    case _ => false
  }

  predicate CountedView(v: View) {
    v.doc.Some? ==> v.tally.handoffs == HandoffsIn(v.doc.value.trace)
  }

  predicate LosesIn(v: View, a: Action) {
    match a
    case Replace(r) =>
      r in v.requests && v.doc.Some? && HandoffsIn(v.requests[r].read.trace) != HandoffsIn(v.doc.value.trace)
    case Store(w) =>
      w in v.holders && v.doc.Some? && HandoffsIn(v.holders[w].call.trace) != HandoffsIn(v.doc.value.trace)
    case _ => false
  }

  lemma CountedNext(v: View, a: Action)
    requires RootedView(v) && Possible(v, a) && CountedView(v)
    ensures CountedView(Next(v, a)) <==> !LosesIn(v, a)
  {
    hide TraceSound, HandedOff, Closed, PhaseFor;
    match a
    case Arrive(c) => NewIsSound(c);
    case ArriveHeld(w, c) => NewIsSound(c);
    case Replace(r) =>
      assert RequestRooted(v.doc.value, v.requests[r]);
      hide HandoffsIn;
    case _ => hide HandoffsIn;
  }

  lemma LosesSeen(s: State, step: Step, id: string)
    requires Enabled(s, step)
    ensures Loses(s, step, id) <==> LosesIn(ViewOf(s, id), ActionOf(s, step, id))
    ensures Counted(s, id) <==> CountedView(ViewOf(s, id))
  {
    ActionKinds(s, step, id);
    hide HandoffsIn, ActionOf, Edited, Accepts;
  }

  lemma CountedStep(s: State, step: Step, id: string)
    requires Rooted(s) && Enabled(s, step) && Counted(s, id)
    ensures Counted(After(s, step), id) <==> !Loses(s, step, id)
  {
    ViewStep(s, step, id);
    LosesSeen(s, step, id);
    assert RootedView(ViewOf(s, id));
    hide Rooted, RootedView, After, Enabled, Loses, LosesIn, HandoffsIn, ActionOf, Possible, Next;
    CountedNext(ViewOf(s, id), ActionOf(s, step, id));
    CountedSeen(After(s, step), id);
  }

  lemma CountedSeen(s: State, id: string)
    ensures Counted(s, id) <==> CountedView(ViewOf(s, id))
  {
    hide HandoffsIn;
  }

  ghost predicate AlwaysCounted(s: State, run: seq<Step>, id: string)
    requires Legal(s, run)
    decreases |run|
  {
    Counted(s, id) && (run != [] ==> AlwaysCounted(After(s, run[0]), run[1..], id))
  }

  /** No save in this run replaces a handoff of the call that it has not read. */
  ghost predicate NothingLost(s: State, run: seq<Step>, id: string)
    requires Legal(s, run)
    decreases |run|
  {
    run != [] ==> !Loses(s, run[0], id) && NothingLost(After(s, run[0]), run[1..], id)
  }

  lemma {:induction false} CountedFrom(s: State, run: seq<Step>, id: string)
    requires Rooted(s) && Counted(s, id) && Legal(s, run)
    ensures AlwaysCounted(s, run, id) <==> NothingLost(s, run, id)
    ensures NothingLost(s, run, id) ==> Counted(Exec(s, run), id)
    decreases |run|
  {
    hide Rooted, After, Enabled, Counted, Loses;
    if run != [] {
      RootedStep(s, run[0]);
      CountedStep(s, run[0], id);
      if !Loses(s, run[0], id) {
        CountedFrom(After(s, run[0]), run[1..], id);
      } else {
        assert !AlwaysCounted(After(s, run[0]), run[1..], id);
      }
    }
  }

  /** In every run: throughout it the trace of a call has one entry per accepted handoff, if
      and only if no save replaces a handoff that it has not read. */
  lemma HandoffsCounted(s: State, run: seq<Step>, id: string)
    requires Start(s) && Legal(s, run)
    ensures AlwaysCounted(s, run, id) <==> NothingLost(s, run, id)
  {
    StartIsRooted(s);
    hide Rooted, Loses;
    CountedFrom(s, run, id);
  }

  /** As long as none is replaced unread, at most |nodes| - 1 handoffs of a call with a sound
      snapshot are ever accepted. */
  lemma HandoffBound(s: State, run: seq<Step>, id: string)
    requires Start(s) && Legal(s, run) && NothingLost(s, run, id) && id in Exec(s, run).calls
    requires SnapshotSound(Exec(s, run).calls[id].snapshot)
    ensures TallyOf(Exec(s, run).tallies, id).handoffs == HandoffsIn(Exec(s, run).calls[id].trace)
    ensures TallyOf(Exec(s, run).tallies, id).handoffs <= |Exec(s, run).calls[id].snapshot.nodes| - 1
  {
    StartIsRooted(s);
    TraceAlwaysSound(s, run, id);
    hide Rooted, TraceSound, Loses;
    CountedFrom(s, run, id);
  }

  // ---------------------------------------------------------------- no handoff out of nothing

  /** No document of the call that is stored or about to be has recorded more handoffs than
      were accepted. */
  ghost predicate Accounted(v: View) {
    && (v.doc.Some? ==> HandoffsIn(v.doc.value.trace) <= v.tally.handoffs)
    && (forall w :: w in v.holders ==> HandoffsIn(v.holders[w].call.trace) <= v.tally.handoffs)
    && (forall r :: r in v.requests ==> HandoffsIn(v.requests[r].read.trace) <= v.tally.handoffs)
  }

  lemma DecisionKeepsHandoffs(c: Call, d: Decision)
    ensures HandoffsIn(PhaseFor(c, d).call.trace) == HandoffsIn(c.trace)
  {
    if d.RingUp? {
      RingKeepsTrace(c, d.room, d.now);
    }
    hide Ring, HandoffsIn;
  }

  lemma AccountedNext(v: View, a: Action)
    requires RootedView(v) && Possible(v, a) && Accounted(v)
    ensures Accounted(Next(v, a))
  {
    hide TraceSound, HandedOff, Closed, PhaseFor;
    match a
    case Arrive(c) => NewIsSound(c);
    case ArriveHeld(w, c) => NewIsSound(c);
    case Decide(w, d) =>
      DecisionKeepsHandoffs(v.holders[w].call, d);
      hide HandoffsIn;
    case Replace(r) =>
      assert RequestRooted(v.doc.value, v.requests[r]);
      hide HandoffsIn;
    case _ => hide HandoffsIn;
  }

  lemma {:induction false} AccountedFrom(s: State, run: seq<Step>, id: string)
    requires Rooted(s) && Legal(s, run) && Accounted(ViewOf(s, id))
    ensures Accounted(ViewOf(Exec(s, run), id))
    decreases |run|
  {
    if run != [] {
      ViewStep(s, run[0], id);
      RootedStep(s, run[0]);
      AccountedNext(ViewOf(s, id), ActionOf(s, run[0], id)) by { assert RootedView(ViewOf(s, id)); }
      hide Rooted, After, Enabled, Accounted, ActionOf, Possible, Next, ViewOf;
      AccountedFrom(After(s, run[0]), run[1..], id);
    }
  }

  /** In every run, whatever is lost, no trace records more handoffs than were accepted. */
  lemma HandoffsAccepted(s: State, run: seq<Step>, id: string)
    requires Start(s) && Legal(s, run) && id in Exec(s, run).calls
    ensures HandoffsIn(Exec(s, run).calls[id].trace) <= TallyOf(Exec(s, run).tallies, id).handoffs
  {
    StartIsRooted(s);
    hide Rooted;
    AccountedFrom(s, run, id);
  }

  // ---------------------------------------------------------------- what stays true of one call

  /** Something that holds of the stored call and of every copy of it that may replace it:
      `doc` of documents, `hold` of dispatchers. */
  ghost predicate Kept(v: View, doc: Call -> bool, hold: Phase -> bool) {
    && v.doc.Some? && doc(v.doc.value)
    && (forall w :: w in v.holders ==> hold(v.holders[w]))
    && (forall r :: r in v.requests ==> doc(v.requests[r].next))
  }

  /** Such documents wait for no dispatcher, and dispatchers make only such documents. */
  ghost predicate Steady(doc: Call -> bool, hold: Phase -> bool) {
    && (forall c :: doc(c) ==> c.status != Pending)
    && (forall p, d :: hold(p) && Allowed(p, d) ==> hold(PhaseFor(p.call, d)))
    && (forall p :: hold(p) && p.Saving? ==> doc(p.call))
  }

  lemma KeptNext(v: View, a: Action, doc: Call -> bool, hold: Phase -> bool)
    requires Kept(v, doc, hold) && Steady(doc, hold) && Possible(v, a) && (a.Look? ==> doc(a.next))
    ensures Kept(Next(v, a), doc, hold)
  {
    hide HandedOff, Closed, PhaseFor, Allowed, Tallied, Redirected;
  }

  /** Nor does a request that reads such a document now make another. */
  ghost predicate EventFits(s: State, step: Step, id: string, doc: Call -> bool)
    requires Enabled(s, step)
  {
    Reads(step) && step.id == id ==> doc(Edited(s.calls[id], step))
  }

  lemma KeptStep(s: State, step: Step, id: string, doc: Call -> bool, hold: Phase -> bool)
    requires Named(s.calls) && Kept(ViewOf(s, id), doc, hold) && Steady(doc, hold)
    requires Enabled(s, step) && EventFits(s, step, id, doc)
    ensures Kept(ViewOf(After(s, step), id), doc, hold)
  {
    ViewStep(s, step, id);
    ActionKinds(s, step, id);
    hide After, Enabled, ActionOf, Possible, Next, Kept, Steady, ViewOf, Edited, Accepts, Reads;
    KeptNext(ViewOf(s, id), ActionOf(s, step, id), doc, hold);
  }

  // ---------------------------------------------------------------- past dispatch

  predicate PastWaiting(c: Call) {
    c.status != Pending && c.status != Dispatching
  }

  predicate NoOne(p: Phase) {
    false
  }

  /** The call is past dispatch, no dispatcher holds it, and the requests that hold it have
      read it there. */
  ghost predicate PastDispatch(s: State, id: string) {
    Kept(ViewOf(s, id), PastWaiting, NoOne)
  }

  /** A call that has rung, or has been active or ended, never waits and is never dispatched
      again, however requests overlap from then on. */
  lemma {:induction false} NeverWaitsAgain(s: State, run: seq<Step>, id: string)
    requires Named(s.calls) && PastDispatch(s, id) && Legal(s, run)
    ensures PastDispatch(Exec(s, run), id)
    decreases |run|
  {
    if run != [] {
      EventKeepsStatus(s, run[0]);
      NamesStay(s, run[0]);
      hide After, Enabled, Edited;
      assert EventFits(s, run[0], id, PastWaiting);
      hide EventFits;
      KeptStep(s, run[0], id, PastWaiting, NoOne);
      hide Kept, ViewOf;
      NeverWaitsAgain(After(s, run[0]), run[1..], id);
    }
  }

  lemma EventKeepsStatus(s: State, step: Step)
    requires Enabled(s, step)
    ensures Reads(step) ==>
              && Accepts(s.calls[step.id], step)
              && var c, next := s.calls[step.id], Edited(s.calls[step.id], step);
              && next.campaignId == c.campaignId
              && (step.ReadHandoff? ==> next.status == c.status && !c.status.Terminal())
              && (step.ReadCompletion? ==> next.status.Terminal())
  {
    if Reads(step) {
      assert Accepts(s.calls[step.id], step);
      EditedMeans(s.calls[step.id], step);
    }
    hide Edited, Enabled, Accepts, TraceSound, HandoffsIn;
  }

  // ---------------------------------------------------------------- ended calls

  predicate HasEnded(c: Call) {
    c.status.Terminal()
  }

  predicate LetsEnd(p: Phase) {
    p.Saving? && p.call.status.Terminal()
  }

  /** Nobody is left who would bring an ended call back: whoever still holds it is about to
      save an ended document. */
  ghost predicate Over(s: State, id: string) {
    Kept(ViewOf(s, id), HasEnded, LetsEnd)
  }

  lemma {:induction false} OverRun(s: State, run: seq<Step>, id: string)
    requires Named(s.calls) && Over(s, id) && Legal(s, run)
    ensures Over(Exec(s, run), id)
    decreases |run|
  {
    if run != [] {
      EventKeepsStatus(s, run[0]);
      NamesStay(s, run[0]);
      hide After, Enabled, Edited;
      assert EventFits(s, run[0], id, HasEnded);
      hide EventFits;
      KeptStep(s, run[0], id, HasEnded, LetsEnd);
      hide Kept, ViewOf;
      OverRun(After(s, run[0]), run[1..], id);
    }
  }

  lemma OverMeans(s: State, id: string)
    requires Over(s, id)
    ensures id in s.calls && s.calls[id].status.Terminal()
  {
  }

  // ---------------------------------------------------------------- late completions

  function StepsLeft(p: Phase): nat {
    match p
    case Checking(_) => 4
    case Counting(_) => 3
    case Cleared(_) => 2
    case Dialing(_) => 1
    case Saving(_) => 0
  }

  /** A dispatcher that does not save yet can move on without deciding to end its call. */
  lemma MoveOn(s: State, w: nat) returns (step: Step)
    requires w in s.workers && !s.workers[w].Saving?
    ensures Enabled(s, step) && w in After(s, step).workers
    ensures var p, q := s.workers[w], After(s, step).workers[w];
            q.call.id == p.call.id && !LetsEnd(q) && StepsLeft(q) < StepsLeft(p)
  {
    hide ActiveOf, AgentAt, Handoff, Complete, AfterClaim, Tallied;
    step :=
      match s.workers[w]
      case Checking(_) => ReadCampaign(w, NotRunning, 0)
      case Counting(_) => CountActive(w, true, 0)
      case Cleared(_) => ReadSwarm(w, true, 0)
      case Dialing(_) => Dial(w, true, "", 0)
      case Saving(_) => Crash(w);
    DecisionAllowed(s, step);
    PhaseKeepsOrigin(s.workers[w].call, DecisionOf(s, step));
    hide Enabled, After;
  }

  /** A dispatcher that has not decided to end its call can always bring it back to life. */
  lemma Revive(s: State, w: nat) returns (run: seq<Step>)
    requires w in s.workers && !LetsEnd(s.workers[w])
    ensures Legal(s, run)
    ensures s.workers[w].call.id in Exec(s, run).calls
    ensures !Exec(s, run).calls[s.workers[w].call.id].status.Terminal()
    decreases StepsLeft(s.workers[w])
  {
    if s.workers[w].Saving? {
      run := [Save(w, true)] + [];
      EmptyRun(After(s, Save(w, true)));
      PrependLegal(s, Save(w, true), []);
    } else {
      var step := MoveOn(s, w);
      hide After, Enabled, LetsEnd, StepsLeft;
      var rest := Revive(After(s, step), w);
      PrependLegal(s, step, rest);
      run := [step] + rest;
    }
  }

  /** So can a handoff that was accepted before the call ended and saves afterwards. */
  lemma ReviveByRequest(s: State, r: nat) returns (run: seq<Step>)
    requires r in s.requests && !s.requests[r].next.status.Terminal()
    ensures Legal(s, run)
    ensures s.requests[r].next.id in Exec(s, run).calls
    ensures !Exec(s, run).calls[s.requests[r].next.id].status.Terminal()
  {
    EmptyRun(After(s, SaveRequest(r, true)));
    PrependLegal(s, SaveRequest(r, true), []);
    run := [SaveRequest(r, true)] + [];
  }

  /** In `s`, a dispatcher that has not decided to end the call holds it, or an accepted
      handoff that has not been saved does. */
  ghost predicate StillHeld(s: State, id: string) {
    || (exists w :: w in s.workers && s.workers[w].call.id == id && !LetsEnd(s.workers[w]))
    || (exists r :: r in s.requests && s.requests[r].next.id == id && !s.requests[r].next.status.Terminal())
  }

  lemma StillHeldRevives(s: State, id: string) returns (run: seq<Step>)
    requires StillHeld(s, id)
    ensures Legal(s, run) && id in Exec(s, run).calls && !Exec(s, run).calls[id].status.Terminal()
  {
    hide Legal, Exec, LetsEnd;
    if w :| w in s.workers && s.workers[w].call.id == id && !LetsEnd(s.workers[w]) {
      run := Revive(s, w);
    } else {
      var r :| r in s.requests && s.requests[r].next.id == id && !s.requests[r].next.status.Terminal();
      run := ReviveByRequest(s, r);
    }
  }

  /** In some run from `s` the call is stored as not ended again. */
  ghost predicate ComesBack(s: State, id: string) {
    exists run :: Legal(s, run) && id in Exec(s, run).calls && !Exec(s, run).calls[id].status.Terminal()
  }

  lemma NotHeldIsOver(s: State, id: string)
    requires Named(s.calls) && id in s.calls && s.calls[id].status.Terminal() && !StillHeld(s, id)
    ensures Over(s, id)
  {
    hide LetsEnd;
  }

  /** An ended call comes back in some run exactly when it is still held. */
  lemma ComesBackIff(s: State, id: string)
    requires Named(s.calls) && id in s.calls && s.calls[id].status.Terminal()
    ensures ComesBack(s, id) <==> StillHeld(s, id)
  {
    if StillHeld(s, id) {
      var run := StillHeldRevives(s, id);
    } else {
      NotHeldIsOver(s, id);
      hide Over, StillHeld, Named;
      forall run | Legal(s, run)
        ensures id in Exec(s, run).calls && Exec(s, run).calls[id].status.Terminal()
      {
        OverRun(s, run, id);
        OverMeans(Exec(s, run), id);
      }
    }
  }

  /** The save of a completion takes nothing from those who hold the call besides it. */
  lemma CompletionSaved(s: State, r: nat)
    requires Named(s.calls) && r in s.requests && s.requests[r].next.status.Terminal()
    ensures var t, c := AfterRequest(s, r, true), s.requests[r].next;
            && Named(t.calls) && c.id in t.calls && t.calls[c.id] == c
            && (StillHeld(t, c.id) <==> StillHeld(s, c.id))
  {
    var t := AfterRequest(s, r, true);
    assert t.workers == s.workers;
    assert forall q :: q in s.requests && !s.requests[q].next.status.Terminal() ==> q in t.requests;
    hide LetsEnd;
  }

  /** A completion that has been saved can be undone exactly when some dispatcher still
      holds the call and has not decided to end it, or an accepted handoff that read the call
      earlier has not been saved yet: the whole-document save of either then overwrites it. */
  lemma LateCompletion(s: State, r: nat)
    requires Named(s.calls) && r in s.requests && s.requests[r].next.status.Terminal()
    ensures ComesBack(AfterRequest(s, r, true), s.requests[r].next.id) <==> StillHeld(s, s.requests[r].next.id)
  {
    CompletionSaved(s, r);
    hide AfterRequest, StillHeld, ComesBack, Named;
    ComesBackIff(AfterRequest(s, r, true), s.requests[r].next.id);
  }

  // ---------------------------------------------------------------- lost claims

  function Lost(campaignId: string): Call -> bool {
    (c: Call) => c.status == Dispatching && c.campaignId == campaignId
  }

  /** A claim whose dispatcher is gone: the stored call says `dispatching`, nobody holds it,
      and a request that has read it has read just that. */
  ghost predicate Stranded(s: State, id: string, campaignId: string) {
    Kept(ViewOf(s, id), Lost(campaignId), NoOne)
  }

  /** The lease does not bring a lost claim back: only a completion ever moves a stranded
      call, and until then it keeps occupying one of its campaign's lines for every
      dispatcher that counts them. */
  lemma {:induction false} StrandedRun(s: State, run: seq<Step>, id: string, k: string)
    requires Named(s.calls) && Stranded(s, id, k) && Legal(s, run)
    requires forall i :: 0 <= i < |run| ==> !(run[i].ReadCompletion? && run[i].id == id)
    ensures Stranded(Exec(s, run), id, k)
    ensures forall other :: other != id ==> id in ActiveOf(Exec(s, run).calls, k, other)
    decreases |run|
  {
    if run != [] {
      EventKeepsStatus(s, run[0]);
      NamesStay(s, run[0]);
      hide After, Enabled, Edited;
      assert EventFits(s, run[0], id, Lost(k));
      hide EventFits;
      KeptStep(s, run[0], id, Lost(k), NoOne);
      hide Stranded;
      StrandedRun(After(s, run[0]), run[1..], id, k);
    }
  }
}
