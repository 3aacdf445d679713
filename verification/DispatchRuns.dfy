/** What the dispatch protocol guarantees of whole runs in which the holders of a call keep
    apart, and exactly when it guarantees more. */
module DispatchRuns {
  import opened SwarmGraph
  import opened Calls
  import opened DispatchProtocol
  import opened OneCall
  import opened DispatchOverlaps
  import opened DispatchSafety
  import opened Wrappers

  /** Kept of a call as long as a dispatcher and a request never hold it at once. */
  ghost predicate Safe(s: State, id: string) {
    HeldView(ViewOf(s, id)) && BookedView(ViewOf(s, id))
  }

  lemma SafeStep(s: State, step: Step, id: string)
    requires Rooted(s) && Safe(s, id) && Enabled(s, step) && Apart(s, step, id)
    ensures Rooted(After(s, step)) && Safe(After(s, step), id)
  {
    RootedStep(s, step);
    ViewStep(s, step, id);
    ApartSeen(s, step, id);
    assert RootedView(ViewOf(s, id));
    hide Rooted, RootedView, HeldView, BookedView, After, Enabled, Apart, ActionOf, ViewOf, ApartIn, Possible, Next;
    HeldNext(ViewOf(s, id), ActionOf(s, step, id));
    BookedNext(ViewOf(s, id), ActionOf(s, step, id));
  }

  lemma {:induction false} SafeRun(s: State, run: seq<Step>, id: string)
    requires Rooted(s) && Safe(s, id) && Legal(s, run) && AllApart(s, run, id)
    ensures Rooted(Exec(s, run)) && Safe(Exec(s, run), id)
    decreases |run|
  {
    hide Rooted, Safe, After, Enabled, Apart;
    if run != [] {
      SafeStep(s, run[0], id);
      SafeRun(After(s, run[0]), run[1..], id);
    }
  }

  lemma StartIsSafe(s: State, id: string)
    requires Start(s)
    ensures Rooted(s) && Safe(s, id) && SingleView(ViewOf(s, id)) && Counted(s, id)
  {
    StartIsRooted(s);
    hide Rooted;
  }

  // ---------------------------------------------------------------- requests after ringing

  /** An assumption about requests: they only ever read the call when it no longer waits and
      is not being dispatched. Nothing enforces it, since the room of a call and its voice
      worker exist before the call is saved as ringing. */
  ghost predicate AllAfterRinging(s: State, run: seq<Step>, id: string)
    requires Legal(s, run)
    decreases |run|
  {
    run != [] ==>
      && (Reads(run[0]) && run[0].id == id ==> PastWaiting(s.calls[id]))
      && AllAfterRinging(After(s, run[0]), run[1..], id)
  }

  ghost predicate RequestsPast(v: View) {
    v.requests != map[] ==> Kept(v, PastWaiting, NoOne)
  }

  lemma EditKeepsPast(c: Call, next: Call)
    requires PastWaiting(c) && (HandedOff(c, next) || Closed(c, next))
    ensures PastWaiting(next)
  {
    hide TraceSound, HandoffsIn;
  }

  lemma PastNext(v: View, a: Action)
    requires RootedView(v) && HeldView(v) && RequestsPast(v) && Possible(v, a)
    requires a.Look? ==> PastWaiting(v.doc.value)
    ensures ApartIn(v, a) && RequestsPast(Next(v, a))
  {
    if a.Look? {
      WaitsUnheld(v);
      EditKeepsPast(v.doc.value, a.next);
    }
    hide HeldView, PhaseFor, HandedOff, Closed, Tallied, Redirected, TraceSound;
    if v.requests != map[] {
      KeptNext(v, a, PastWaiting, NoOne);
    } else {
      HeldIsStored(v);
    }
    hide Took, Claim;
  }

  lemma ApartMeans(s: State, step: Step, id: string)
    requires Named(s.calls) && Enabled(s, step) && ApartIn(ViewOf(s, id), ActionOf(s, step, id))
    ensures Apart(s, step, id)
  {
    ActionKinds(s, step, id);
    hide ActionOf, Enabled, Edited, Accepts;
    assert InFlight(s, id) ==> ViewOf(s, id).holders != map[] by {
      if w :| w in s.workers && s.workers[w].call.id == id {
        assert w in ViewOf(s, id).holders;
      }
    }
    assert Requested(s, id) ==> ViewOf(s, id).requests != map[] by {
      if r :| r in s.requests && s.requests[r].next.id == id {
        assert r in ViewOf(s, id).requests;
      }
    }
    hide ViewOf, InFlight, Requested;
  }

  lemma PastStep(s: State, step: Step, id: string)
    requires Rooted(s) && Safe(s, id) && RequestsPast(ViewOf(s, id)) && Enabled(s, step)
    requires Reads(step) && step.id == id ==> PastWaiting(s.calls[id])
    ensures Apart(s, step, id) && RequestsPast(ViewOf(After(s, step), id))
  {
    ViewStep(s, step, id);
    assert RootedView(ViewOf(s, id));
    ActionKinds(s, step, id);
    hide RootedView, HeldView, BookedView, After, RequestsPast, ActionOf, PastWaiting, ApartIn, Apart, Possible, Next;
    hide Edited, Accepts, HoldersOf, RequestsOf, Named;
    PastNext(ViewOf(s, id), ActionOf(s, step, id));
    ApartMeans(s, step, id);
  }

  lemma {:induction false} PastFrom(s: State, run: seq<Step>, id: string)
    requires Rooted(s) && Safe(s, id) && RequestsPast(ViewOf(s, id)) && Legal(s, run) && AllAfterRinging(s, run, id)
    ensures AllApart(s, run, id)
    decreases |run|
  {
    if run != [] {
      PastStep(s, run[0], id);
      hide After, Enabled, Apart, Rooted, Safe, RequestsPast, PastWaiting, ViewOf;
      SafeStep(s, run[0], id);
      PastFrom(After(s, run[0]), run[1..], id);
    }
  }

  /** Such requests keep apart from dispatchers by themselves. */
  lemma AfterRingingIsApart(s: State, run: seq<Step>, id: string)
    requires Start(s) && Legal(s, run) && AllAfterRinging(s, run, id)
    ensures AllApart(s, run, id)
  {
    StartIsSafe(s, id);
    StartIsRooted(s);
    hide Rooted, Safe;
    PastFrom(s, run, id);
  }

  // ---------------------------------------------------------------- ringing calls

  predicate RingsPastGate(s: State, id: string) {
    id in s.calls && s.calls[id].status == Ringing ==> id in s.cleared
  }

  /** A handoff brings a call that has ended back to ringing. */
  predicate RingsAgain(s: State, step: Step, id: string) {
    && step.SaveRequest? && step.stored && step.request in s.requests
    && s.requests[step.request].next.id == id && s.requests[step.request].next.status == Ringing
    && id in s.calls && s.calls[id].status.Terminal()
  }

  lemma RingingSeen(s: State, step: Step, id: string)
    requires Enabled(s, step)
    ensures RingsAgain(s, step, id) <==> RingsAgainIn(ViewOf(s, id), ActionOf(s, step, id))
  {
    ActionKinds(s, step, id);
    hide ActionOf, Edited, Accepts;
  }

  lemma RingingStep(s: State, step: Step, id: string)
    requires Rooted(s) && Safe(s, id) && RingsPastGate(s, id) && Enabled(s, step)
    ensures RingsPastGate(After(s, step), id) <==> !RingsAgain(s, step, id)
  {
    ViewStep(s, step, id);
    RingingSeen(s, step, id);
    assert RootedView(ViewOf(s, id));
    hide Rooted, RootedView, HeldView, BookedView, After, Enabled, RingsAgain, RingsAgainIn, ActionOf, Possible, Next;
    RingingNext(ViewOf(s, id), ActionOf(s, step, id));
  }

  ghost predicate AlwaysPastGate(s: State, run: seq<Step>, id: string)
    requires Legal(s, run)
    decreases |run|
  {
    RingsPastGate(s, id) && (run != [] ==> AlwaysPastGate(After(s, run[0]), run[1..], id))
  }

  ghost predicate NeverRingsAgain(s: State, run: seq<Step>, id: string)
    requires Legal(s, run)
    decreases |run|
  {
    run != [] ==> !RingsAgain(s, run[0], id) && NeverRingsAgain(After(s, run[0]), run[1..], id)
  }

  lemma {:induction false} RingingFrom(s: State, run: seq<Step>, id: string)
    requires Rooted(s) && Safe(s, id) && RingsPastGate(s, id) && Legal(s, run) && AllApart(s, run, id)
    ensures AlwaysPastGate(s, run, id) <==> NeverRingsAgain(s, run, id)
    ensures NeverRingsAgain(s, run, id) ==> RingsPastGate(Exec(s, run), id)
    decreases |run|
  {
    hide Rooted, Safe, After, Enabled, Apart, RingsPastGate, RingsAgain;
    if run != [] {
      SafeStep(s, run[0], id);
      RingingStep(s, run[0], id);
      if !RingsAgain(s, run[0], id) {
        RingingFrom(After(s, run[0]), run[1..], id);
      } else {
        assert !AlwaysPastGate(After(s, run[0]), run[1..], id);
      }
    }
  }

  /** As long as a dispatcher and a request never hold the call at once: throughout the run it
      rings only past the gate, if and only if no handoff brings it back to ringing after it
      has ended. */
  lemma RingingIsPastGate(s: State, run: seq<Step>, id: string)
    requires Start(s) && Legal(s, run) && AllApart(s, run, id)
    ensures AlwaysPastGate(s, run, id) <==> NeverRingsAgain(s, run, id)
  {
    StartIsSafe(s, id);
    hide Rooted, Safe;
    RingingFrom(s, run, id);
  }

  // ---------------------------------------------------------------- lines

  function RingingOf(s: State, campaignId: string): set<string> {
    set id | id in s.calls && s.calls[id].campaignId == campaignId && s.calls[id].status == Ringing
  }

  /** Call `id` is one of the campaign's by the end of the run. */
  ghost predicate Joins(s: State, run: seq<Step>, k: string, id: string)
    requires Legal(s, run)
  {
    id in Exec(s, run).calls && Exec(s, run).calls[id].campaignId == k
  }

  ghost predicate SafeCampaign(s: State, k: string) {
    forall id :: id in s.calls && s.calls[id].campaignId == k ==> Safe(s, id)
  }

  lemma NewIsSafe(s: State, id: string)
    requires Rooted(s) && id !in s.calls
    ensures Safe(s, id)
  {
    assert RootedView(ViewOf(s, id));
  }

  lemma CampaignStep(s: State, run: seq<Step>, k: string)
    requires Rooted(s) && SafeCampaign(s, k) && Legal(s, run) && run != []
    requires forall id :: Joins(s, run, k, id) ==> Apart(s, run[0], id)
    ensures SafeCampaign(After(s, run[0]), k)
  {
    var t := After(s, run[0]);
    RootedStep(s, run[0]);
    RootedRun(t, run[1..]);
    hide Safe, Apart, After, Enabled, Rooted;
    forall id | id in t.calls && t.calls[id].campaignId == k
      ensures Safe(t, id)
    {
      assert Joins(s, run, k, id);
      if id !in s.calls {
        NewIsSafe(s, id);
      }
      SafeStep(s, run[0], id);
    }
  }

  /** A step keeps the campaign within its limit. */
  lemma LimitStep(s: State, step: Step, k: string)
    requires Rooted(s) && SafeCampaign(s, k) && WithinLimit(s, k) && k != "" && Enabled(s, step)
    ensures WithinLimit(After(s, step), k)
  {
    assert HeldCampaign(s, k) by { hide HeldView; }
    hide SafeCampaign, HeldCampaign, Rooted, ClearedOf;
    if WithoutCount(s, step, k) {
      hide WithoutCount, Enabled;
      LimitsStay(s, step);
      hide After;
      ClearedStep(s, step, k);
      SubsetSize(ClearedOf(After(s, step), k), ClearedOf(s, k));
    } else {
      DecisionAllowed(s, step);
      assert step.CountActive? && step.readable by { hide After, Move, PhaseFor; }
      hide After, Move;
      LimitsAtGate(s, step.worker, step.now, k);
    }
  }

  lemma {:induction false} LimitFrom(s: State, run: seq<Step>, k: string)
    requires Rooted(s) && SafeCampaign(s, k) && WithinLimit(s, k) && k != "" && Legal(s, run)
    requires forall id :: Joins(s, run, k, id) ==> AllApart(s, run, id)
    ensures WithinLimit(Exec(s, run), k) && SafeCampaign(Exec(s, run), k)
    decreases |run|
  {
    hide Rooted, SafeCampaign, WithinLimit, After, Enabled, Apart;
    if run != [] {
      CampaignStep(s, run, k);
      LimitStep(s, run[0], k);
      RootedStep(s, run[0]);
      assert forall id :: Joins(After(s, run[0]), run[1..], k, id) ==> Joins(s, run, k, id);
      LimitFrom(After(s, run[0]), run[1..], k);
    }
  }

  /** If a dispatcher and a request never hold the same call of the campaign, it never has
      more calls past the gate that have not ended since than its MaxConcurrency, and each of
      its ringing calls is one of them, unless it had ended and was brought back. If no handoff
      brings one back to ringing, no more calls ring than MaxConcurrency allows. */
  lemma LineLimit(s: State, run: seq<Step>, k: string)
    requires Start(s) && Legal(s, run) && k != "" && Limit(s, k) >= 0
    requires forall id :: Joins(s, run, k, id) ==> AllApart(s, run, id)
    ensures var t := Exec(s, run);
            && |ClearedOf(t, k)| <= Limit(s, k)
            && RingingOf(t, k) - t.ended <= ClearedOf(t, k)
            && forall w :: PastGate(t, w, k) ==> t.workers[w].call.id in ClearedOf(t, k)
    ensures (forall id :: Joins(s, run, k, id) ==> NeverRingsAgain(s, run, id)) ==>
              RingingOf(Exec(s, run), k) <= ClearedOf(Exec(s, run), k) && |RingingOf(Exec(s, run), k)| <= Limit(s, k)
  {
    StartIsRooted(s);
    RootedRun(s, run);
    LimitFrom(s, run, k) by { StartWithin(s, k); }
    LinesWithin(Exec(s, run), k);
    if forall id :: Joins(s, run, k, id) ==> NeverRingsAgain(s, run, id) {
      RingingWithin(s, run, k);
    }
  }

  lemma StartWithin(s: State, k: string)
    requires Start(s)
    ensures SafeCampaign(s, k) && WithinLimit(s, k)
  {
    assert ClearedOf(s, k) == {};
  }

  /** The dispatcher is past the gate with a call of the campaign. */
  predicate PastGate(s: State, w: nat, k: string) {
    w in s.workers && (s.workers[w].Cleared? || s.workers[w].Dialing?) && s.workers[w].call.campaignId == k
  }

  lemma LinesWithin(t: State, k: string)
    requires Rooted(t) && SafeCampaign(t, k)
    ensures RingingOf(t, k) - t.ended <= ClearedOf(t, k)
    ensures forall w :: PastGate(t, w, k) ==> t.workers[w].call.id in ClearedOf(t, k)
  {
    hide Rooted;
    forall id | id in RingingOf(t, k) && id !in t.ended
      ensures id in ClearedOf(t, k)
    {
      assert Safe(t, id);
      hide HoldersOf, RequestsOf, HeldSound, OneHolder, Agree, BookedView;
    }
    forall w | PastGate(t, w, k)
      ensures t.workers[w].call.id in ClearedOf(t, k)
    {
      HolderIsIn(t, w, k);
    }
  }

  lemma HolderIsIn(t: State, w: nat, k: string)
    requires Rooted(t) && SafeCampaign(t, k) && PastGate(t, w, k)
    ensures t.workers[w].call.id in ClearedOf(t, k)
  {
    var id := t.workers[w].call.id;
    var v := ViewOf(t, id);
    assert RootedView(v) && w in v.holders;
    assert PhaseRooted(v.doc.value, v.holders[w]);
    assert Safe(t, id);
    assert HeldSound(v.doc.value, v.cleared, v.holders[w]);
  }

  lemma RingingWithin(s: State, run: seq<Step>, k: string)
    requires Start(s) && Legal(s, run)
    requires forall id :: Joins(s, run, k, id) ==> AllApart(s, run, id) && NeverRingsAgain(s, run, id)
    ensures RingingOf(Exec(s, run), k) <= ClearedOf(Exec(s, run), k)
    ensures |RingingOf(Exec(s, run), k)| <= |ClearedOf(Exec(s, run), k)|
  {
    var t := Exec(s, run);
    forall id | id in RingingOf(t, k)
      ensures id in ClearedOf(t, k)
    {
      assert Joins(s, run, k, id);
      StartIsSafe(s, id);
      hide Rooted, Safe;
      RingingFrom(s, run, id);
    }
    SubsetSize(RingingOf(t, k), ClearedOf(t, k));
  }

  // ---------------------------------------------------------------- attempts

  /** If a dispatcher and a request never hold the call at once, it is dialled at most
      MaxAttempts times, and while it waits it still has attempts left, holds no lease and has
      spent attempts only on failed dispatches. */
  lemma AttemptBound(s: State, run: seq<Step>, id: string)
    requires Start(s) && Legal(s, run) && AllApart(s, run, id) && id in Exec(s, run).calls
    ensures var c := Exec(s, run).calls[id];
            var tally := TallyOf(Exec(s, run).tallies, id);
            && tally.dials <= c.attempt <= c.maxAttempts
            && (c.status == Pending ==>
                  && c.attempt == tally.failures < c.maxAttempts
                  && c.leaseUntil == None)
  {
    StartIsSafe(s, id);
    hide Rooted;
    SafeRun(s, run, id);
    hide HeldView;
  }

  /** No request ever reads the call. */
  ghost predicate NeverRead(run: seq<Step>, id: string) {
    forall i :: 0 <= i < |run| ==> !(Reads(run[i]) && run[i].id == id)
  }

  lemma FailsStep(s: State, step: Step, id: string)
    requires Rooted(s) && Safe(s, id) && FailsLast(ViewOf(s, id)) && Enabled(s, step) && !(Reads(step) && step.id == id)
    ensures Apart(s, step, id) && FailsLast(ViewOf(After(s, step), id))
  {
    ViewStep(s, step, id);
    ActionKinds(s, step, id);
    assert RootedView(ViewOf(s, id));
    assert ApartIn(ViewOf(s, id), ActionOf(s, step, id)) by { hide ActionOf, HeldView, BookedView, RootedView; }
    ApartMeans(s, step, id);
    hide RootedView, HeldView, BookedView, After, FailsLast, ActionOf, ApartIn, Apart, Possible, Next, Reads, ViewOf;
    FailsNext(ViewOf(s, id), ActionOf(s, step, id));
  }

  lemma {:induction false} FailsFrom(s: State, run: seq<Step>, id: string)
    requires Rooted(s) && Safe(s, id) && FailsLast(ViewOf(s, id)) && Legal(s, run) && NeverRead(run, id)
    ensures FailsLast(ViewOf(Exec(s, run), id))
    decreases |run|
  {
    if run != [] {
      FailsStep(s, run[0], id);
      hide After, Enabled, Apart, Rooted, Safe, FailsLast, ViewOf, Reads;
      SafeStep(s, run[0], id);
      FailsFrom(After(s, run[0]), run[1..], id);
    }
  }

  /** As long as no request reads the call, dispatching fails it exactly with its last attempt:
      it is failed only after MaxAttempts failed dispatches, and after so many it is failed,
      unless that was not saved. */
  lemma FailedAfterLastAttempt(s: State, run: seq<Step>, id: string)
    requires Start(s) && Legal(s, run) && NeverRead(run, id) && id in Exec(s, run).calls
    ensures var c, failures := Exec(s, run).calls[id], TallyOf(Exec(s, run).tallies, id).failures;
            && (c.status == Failed ==> failures == c.maxAttempts)
            && (failures >= c.maxAttempts ==> c.status == Failed || c.status == Dispatching)
            && c.status != Completed
  {
    StartIsSafe(s, id);
    assert FailsLast(ViewOf(s, id)) by { StartIsRooted(s); }
    hide Rooted, Safe;
    FailsFrom(s, run, id);
  }

  /** A deferral gives back the attempt that the claim took. */
  lemma DeferUndoesClaim(c: Call, now: int, at: int)
    requires c.status == Pending && c.leaseUntil == None && c.attempt >= 0
    ensures Defer(Claim(c, now), at) == c.(scheduledAt := at)
  {
  }

  // ---------------------------------------------------------------- one holder at a time

  lemma SingleStep(s: State, step: Step, id: string)
    requires Rooted(s) && Safe(s, id) && SingleView(ViewOf(s, id)) && Enabled(s, step) && Alone(s, step, id)
    ensures SingleView(ViewOf(After(s, step), id))
    ensures !Loses(s, step, id) && !RingsAgain(s, step, id)
  {
    ViewStep(s, step, id);
    ApartSeen(s, step, id);
    LosesSeen(s, step, id);
    RingingSeen(s, step, id);
    assert RootedView(ViewOf(s, id));
    hide Rooted, RootedView, HeldView, SingleView, BookedView, After, Enabled, Alone, ActionOf, ViewOf, AloneIn, Next;
    hide Possible, Loses, LosesIn, RingsAgain, RingsAgainIn;
    SingleNext(ViewOf(s, id), ActionOf(s, step, id));
    SingleLosesNothing(ViewOf(s, id), ActionOf(s, step, id));
  }

  lemma {:induction false} SoleFrom(s: State, run: seq<Step>, id: string)
    requires Rooted(s) && Safe(s, id) && SingleView(ViewOf(s, id)) && Legal(s, run) && AllAlone(s, run, id)
    ensures Rooted(Exec(s, run)) && Safe(Exec(s, run), id) && SingleView(ViewOf(Exec(s, run), id))
    ensures AllApart(s, run, id) && NothingLost(s, run, id) && NeverRingsAgain(s, run, id)
    decreases |run|
  {
    hide Rooted, Safe, SingleView, ViewOf, After, Enabled, Apart, Loses, RingsAgain;
    if run != [] {
      SafeStep(s, run[0], id);
      SingleStep(s, run[0], id);
      SoleFrom(After(s, run[0]), run[1..], id);
    }
  }

  /** A call that is never held twice at once meets every condition of the other results: no
      handoff of it is lost and it is never brought back to ringing. */
  lemma AloneMeetsAll(s: State, run: seq<Step>, id: string)
    requires Start(s) && Legal(s, run) && AllAlone(s, run, id)
    ensures AllApart(s, run, id) && NothingLost(s, run, id) && NeverRingsAgain(s, run, id)
  {
    StartIsSafe(s, id);
    hide Rooted, Safe, SingleView;
    SoleFrom(s, run, id);
  }

  /** As long as it is never held twice at once, a call stays completed, failed or cancelled
      once it is, whatever overlaps later on. */
  lemma EndedForGood(s: State, run: seq<Step>, more: seq<Step>, id: string)
    requires Start(s) && Legal(s, run) && AllAlone(s, run, id)
    requires id in Exec(s, run).calls && Exec(s, run).calls[id].status.Terminal()
    requires Legal(Exec(s, run), more)
    ensures id in Exec(Exec(s, run), more).calls
    ensures Exec(Exec(s, run), more).calls[id].status.Terminal()
  {
    StartIsSafe(s, id);
    SoleFrom(s, run, id) by { hide Rooted, Safe, SingleView; }
    hide HeldView, SingleView, BookedView;
    SingleIsOver(ViewOf(Exec(s, run), id));
    hide Kept, Safe;
    OverRun(Exec(s, run), more, id);
    OverMeans(Exec(Exec(s, run), more), id);
  }

  // ---------------------------------------------------------------- lost claims

  /** After a crash between claim and save the call stays as it is for the whole rest of the
      run, and keeps one of its campaign's lines, unless a completion reads it. */
  lemma CrashStrands(s: State, before: seq<Step>, w: nat, run: seq<Step>, id: string)
    requires Start(s) && Legal(s, before) && AllApart(s, before, id)
    requires w in Exec(s, before).workers && Exec(s, before).workers[w].call.id == id
    requires Legal(AfterCrash(Exec(s, before), w), run)
    requires forall i :: 0 <= i < |run| ==> !(run[i].ReadCompletion? && run[i].id == id)
    ensures var t, k := Exec(AfterCrash(Exec(s, before), w), run), Exec(s, before).workers[w].call.campaignId;
            Stranded(t, id, k) && forall other :: other != id ==> id in ActiveOf(t.calls, k, other)
  {
    StartIsSafe(s, id);
    SafeRun(s, before, id);
    var crashed := Exec(s, before);
    CrashedIsStranded(crashed, w);
    hide Stranded, AfterCrash;
    StrandedRun(AfterCrash(crashed, w), run, id, crashed.workers[w].call.campaignId);
  }

  lemma CrashedIsStranded(s: State, w: nat)
    requires Rooted(s) && w in s.workers && HeldView(ViewOf(s, s.workers[w].call.id))
    ensures Named(AfterCrash(s, w).calls)
    ensures Stranded(AfterCrash(s, w), s.workers[w].call.id, s.workers[w].call.campaignId)
  {
    var id := s.workers[w].call.id;
    var v := ViewOf(s, id);
    assert w in v.holders && RootedView(v);
    assert PhaseRooted(v.doc.value, v.holders[w]);
    assert HeldSound(v.doc.value, v.cleared, v.holders[w]);
    ViewLeave(s, w, id);
    assert v.holders - {w} == map[];
    hide HeldSound, RootedView, PhaseRooted, ClearedSound, Agree, ViewOf;
  }
}
