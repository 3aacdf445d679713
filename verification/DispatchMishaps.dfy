/** What overlaps can do. In the first three results dispatchers and requests keep apart,
    yet two requests hold the same call; in the last a request holds a call that is being
    dispatched. */
module DispatchMishaps {
  import opened SwarmGraph
  import opened Calls
  import opened DispatchProtocol
  import opened OneCall
  import opened DispatchOverlaps
  import opened DispatchSafety
  import opened DispatchRuns
  import opened Wrappers

  /** `run` leads from `s` to `t`, and in it dispatchers and requests keep apart over every
      call but those in `mixed`. */
  ghost predicate Leads(s: State, run: seq<Step>, t: State, mixed: set<string>) {
    Legal(s, run) && Exec(s, run) == t && forall id :: id !in mixed ==> AllApart(s, run, id)
  }

  lemma LeadsNowhere(s: State, mixed: set<string>)
    ensures Leads(s, [], s, mixed)
  {
  }

  lemma LeadsOn(s: State, run: seq<Step>, t: State, step: Step, mixed: set<string>)
    requires Leads(s, run, t, mixed) && Enabled(t, step) && forall id :: id !in mixed ==> Apart(t, step, id)
    ensures Leads(s, run + [step], After(t, step), mixed)
  {
    hide Enabled, Apart, After;
    AppendLegal(s, run, step);
  }

  lemma LeadsFurther(s: State, run: seq<Step>, t: State, more: seq<Step>, u: State, mixed: set<string>)
    requires Leads(s, run, t, mixed) && Leads(t, more, u, mixed)
    ensures Leads(s, run + more, u, mixed)
  {
    ConcatLegal(s, run, more);
  }

  /** No dispatcher holds the call, and a handoff may take it along an edge to `to`. */
  ghost predicate CanMove(s: State, id: string, to: string) {
    && id in s.calls && s.calls[id].id == id && !InFlight(s, id)
    && Handoff(s.calls[id], s.calls[id].currentNodeKey, to, "", 0).Ok?
  }

  function HandoffTo(s: State, q: nat, id: string, to: string): Step
    requires id in s.calls
  {
    ReadHandoff(q, id, s.calls[id].currentNodeKey, to, "", 0)
  }

  function MovedTo(s: State, id: string, to: string): Call
    requires CanMove(s, id, to)
  {
    Handoff(s.calls[id], s.calls[id].currentNodeKey, to, "", 0).value
  }

  /** Reading the call for a handoff or a completion leaves it as it is. */
  lemma ReadsOn(s: State, run: seq<Step>, t: State, mixed: set<string>, id: string, to: string, q: nat)
    requires Leads(s, run, t, mixed) && CanMove(t, id, to) && q !in t.requests
    ensures HandedOff(t.calls[id], MovedTo(t, id, to))
    ensures Leads(s, run + [HandoffTo(t, q, id, to)], AfterRead(t, q, id, MovedTo(t, id, to)), mixed)
    ensures Leads(s, run + [ReadCompletion(q, id, false, 0)],
                  AfterRead(t, q, id, Complete(t.calls[id], false, 0)), mixed)
  {
    hide Leads, HandedOff;
    var c := t.calls[id];
    HandoffMeans(c, c.currentNodeKey, to, "", 0);
    LeadsOn(s, run, t, HandoffTo(t, q, id, to), mixed);
    LeadsOn(s, run, t, ReadCompletion(q, id, false, 0), mixed);
  }

  lemma SavesOn(s: State, run: seq<Step>, t: State, mixed: set<string>, q: nat)
    requires Leads(s, run, t, mixed) && q in t.requests
    ensures Leads(s, run + [SaveRequest(q, true)], AfterRequest(t, q, true), mixed)
  {
    hide Leads;
    LeadsOn(s, run, t, SaveRequest(q, true), mixed);
  }

  /** A call is completed between the read of a handoff and its save. */
  lemma OverlapEnds(s: State, id: string, to: string, q: nat, r: nat) returns (run: seq<Step>, t: State)
    requires CanMove(s, id, to) && q != r && q !in s.requests && r !in s.requests
    ensures Leads(s, run, t, {})
    ensures t.calls == s.calls[id := Complete(s.calls[id], false, 0)]
    ensures t.workers == s.workers && t.limits == s.limits
    ensures t.requests == s.requests[q := Request(s.calls[id], MovedTo(s, id, to))]
    ensures HandedOff(s.calls[id], MovedTo(s, id, to))
  {
    hide Leads, Handoff, HandedOff;
    LeadsNowhere(s, {});
    ReadsOn(s, [], s, {}, id, to, q);
    run, t := [] + [HandoffTo(s, q, id, to)], AfterRead(s, q, id, MovedTo(s, id, to));
    ReadsOn(s, run, t, {}, id, to, r);
    run, t := run + [ReadCompletion(r, id, false, 0)], AfterRead(t, r, id, Complete(s.calls[id], false, 0));
    SavesOn(s, run, t, {}, r);
    run, t := run + [SaveRequest(r, true)], AfterRequest(t, r, true);
  }

  /** Any call that can be handed off can be completed and come back: the handoff is read
      before the completion and saved after it. */
  lemma OverlapRevives(s: State, id: string, to: string, q: nat, r: nat)
    returns (run: seq<Step>, ended: State, last: Step, back: State)
    requires CanMove(s, id, to) && q != r && q !in s.requests && r !in s.requests
    ensures Leads(s, run, ended, {}) && Leads(s, run + [last], back, {})
    ensures id in ended.calls && ended.calls[id].status == Completed
    ensures id in back.calls && back.calls[id].status == s.calls[id].status != Completed
    ensures s.calls[id].status == Ringing ==> RingsAgain(ended, last, id)
  {
    run, ended := OverlapEnds(s, id, to, q, r);
    hide Leads, Handoff, TraceSound, HandoffsIn;
    last := SaveRequest(q, true);
    SavesOn(s, run, ended, {}, q);
    back := AfterRequest(ended, q, true);
  }

  /** Of any call that can be handed off, two handoffs along one edge can be accepted that
      leave a single trace entry: the last save loses the other's handoff. */
  lemma OverlapCountsTwice(s: State, id: string, to: string, q: nat, r: nat)
    returns (run: seq<Step>, before: State, last: Step, t: State)
    requires CanMove(s, id, to) && q != r && q !in s.requests && r !in s.requests
    ensures Leads(s, run, before, {}) && Leads(s, run + [last], t, {}) && Loses(before, last, id)
    ensures id in t.calls && TallyOf(t.tallies, id).handoffs == TallyOf(s.tallies, id).handoffs + 2
    ensures HandoffsIn(t.calls[id].trace) == HandoffsIn(s.calls[id].trace) + 1
  {
    var moved;
    run, before, moved := TwoRead(s, id, to, q, r);
    hide Leads, HandoffsIn, AfterRequest, CanMove;
    SavesOn(s, run, before, {}, q);
    RequestMeans(before, q);
    run, before := run + [SaveRequest(q, true)], AfterRequest(before, q, true);
    last := SaveRequest(r, true);
    RequestMeans(before, r);
    SavesOn(s, run, before, {}, r);
    t := AfterRequest(before, r, true);
  }

  /** Two handoffs have read one document of the call and would both save the same. */
  lemma TwoRead(s: State, id: string, to: string, q: nat, r: nat) returns (run: seq<Step>, t: State, moved: Call)
    requires CanMove(s, id, to) && q != r && q !in s.requests && r !in s.requests
    ensures Leads(s, run, t, {})
    ensures t == s.(requests := s.requests[q := Request(s.calls[id], moved)][r := Request(s.calls[id], moved)])
    ensures moved.id == id && !moved.status.Terminal()
    ensures HandoffsIn(moved.trace) == HandoffsIn(s.calls[id].trace) + 1
  {
    moved := MovedTo(s, id, to);
    hide Leads, Handoff, Complete;
    LeadsNowhere(s, {});
    ReadsOn(s, [], s, {}, id, to, q);
    assert moved.id == id && !moved.status.Terminal() && HandoffsIn(moved.trace) == HandoffsIn(s.calls[id].trace) + 1;
    hide HandedOff, HandoffsIn;
    t, run := AfterRead(s, q, id, moved), [] + [HandoffTo(s, q, id, to)];
    ReadsOn(s, run, t, {}, id, to, r);
    t, run := AfterRead(t, r, id, moved), run + [HandoffTo(t, r, id, to)];
  }

  // ---------------------------------------------------------------- one dispatch

  /** Call `id` waits, may be claimed, and its campaign has a free line. */
  ghost predicate Ready(s: State, id: string) {
    && s.workers == map[] && id in s.calls && s.calls[id].id == id && s.calls[id].campaignId != ""
    && Claimable(s.calls[id], 0) && |ActiveOf(s.calls, s.calls[id].campaignId, id)| < Limit(s, s.calls[id].campaignId)
  }

  /** `t` is `s` with call `c` stored and, of its history, one more dial. */
  ghost predicate DialledOnce(s: State, t: State, c: Call) {
    && t.calls == s.calls[c.id := c] && t.workers == map[] && t.requests == s.requests && t.limits == s.limits
    && TallyOf(t.tallies, c.id).dials == TallyOf(s.tallies, c.id).dials + 1
  }

  /** `t` is `s` with the only dispatcher in phase `p`. */
  ghost predicate InPhase(s: State, t: State, p: Phase) {
    && t.workers == map[0 := p] && t.calls == s.calls && t.requests == s.requests && t.limits == s.limits
    && TallyOf(t.tallies, p.call.id).dials ==
       TallyOf(s.tallies, p.call.id).dials + (if p.Saving? then 1 else 0)
  }

  lemma DecidesOn(s: State, run: seq<Step>, t: State, mixed: set<string>, p: Phase, step: Step, d: Decision)
    requires Leads(s, run, t, mixed) && InPhase(s, t, p)
    requires Enabled(t, step) && Decides(step) && step.worker == 0 && DecisionOf(t, step) == d
    requires p.Dialing? <==> PhaseFor(p.call, d).Saving?
    ensures Leads(s, run + [step], Move(t, 0, d), mixed) && InPhase(s, Move(t, 0, d), PhaseFor(p.call, d))
  {
    hide Leads;
    DecisionAllowed(t, step);
    PhaseKeepsOrigin(p.call, d);
    LeadsOn(s, run, t, step, mixed);
    MoveMeans(t, 0, d);
    hide PhaseFor, Move, After, Enabled, DecisionOf;
    assert t.workers[0 := PhaseFor(p.call, d)] == map[0 := PhaseFor(p.call, d)];
  }

  /** From claim past the gates, with nobody in the way. */
  lemma Gates(s: State, c: Call, mixed: set<string>) returns (run: seq<Step>, t: State)
    requires s.workers == map[0 := Checking(c)]
    requires |ActiveOf(s.calls, c.campaignId, c.id)| < Limit(s, c.campaignId)
    ensures Leads(s, run, t, mixed) && InPhase(s, t, Cleared(c))
  {
    hide Leads, Move, ActiveOf, TallyOf;
    LeadsNowhere(s, mixed);
    DecidesOn(s, [], s, mixed, Checking(c), ReadCampaign(0, Open, 0), GoCount);
    run, t := [] + [ReadCampaign(0, Open, 0)], Move(s, 0, GoCount);
    DecidesOn(s, run, t, mixed, Counting(c), CountActive(0, true, 0), GoClear);
    run, t := run + [CountActive(0, true, 0)], Move(t, 0, GoClear);
  }

  /** From claim to ringing. */
  lemma Dials(s: State, c: Call, mixed: set<string>) returns (run: seq<Step>, t: State)
    requires s.workers == map[0 := Checking(c)]
    requires |ActiveOf(s.calls, c.campaignId, c.id)| < Limit(s, c.campaignId)
    ensures Leads(s, run, t, mixed) && DialledOnce(s, t, Ring(c, "", 0))
  {
    var u;
    run, u := Gates(s, c, mixed);
    hide ActiveOf, Leads, InPhase, DialledOnce;
    run, u := Answers(s, run, u, c, mixed);
    run, t := RingStored(s, run, u, c, mixed);
  }

  /** From past the gates to an answered dial. */
  lemma Answers(s: State, before: seq<Step>, u: State, c: Call, mixed: set<string>)
    returns (run: seq<Step>, t: State)
    requires Leads(s, before, u, mixed) && InPhase(s, u, Cleared(c))
    ensures Leads(s, run, t, mixed) && InPhase(s, t, Saving(Ring(c, "", 0)))
  {
    hide Leads, Ring, Move, TallyOf;
    DecidesOn(s, before, u, mixed, Cleared(c), ReadSwarm(0, true, 0), GoDial);
    run, t := before + [ReadSwarm(0, true, 0)], Move(u, 0, GoDial);
    DecidesOn(s, run, t, mixed, Dialing(c), Dial(0, true, "", 0), RingUp("", 0));
    run, t := run + [Dial(0, true, "", 0)], Move(t, 0, RingUp("", 0));
  }

  lemma RingStored(s: State, before: seq<Step>, u: State, c: Call, mixed: set<string>)
    returns (run: seq<Step>, t: State)
    requires Leads(s, before, u, mixed) && InPhase(s, u, Saving(Ring(c, "", 0)))
    ensures Leads(s, run, t, mixed) && DialledOnce(s, t, Ring(c, "", 0))
  {
    var rung := Ring(c, "", 0);
    RingKeepsTrace(c, "", 0);
    hide Leads, Ring;
    StoresOn(s, before, u, mixed, 0);
    run, t := before + [Save(0, true)], Written(u, 0, rung);
    assert u.workers - {0} == map[];
  }

  lemma StoresOn(s: State, run: seq<Step>, t: State, mixed: set<string>, w: nat)
    requires Leads(s, run, t, mixed) && w in t.workers && t.workers[w].Saving?
    ensures Leads(s, run + [Save(w, true)], Written(t, w, t.workers[w].call), mixed)
  {
    hide Leads, Written;
    LeadsOn(s, run, t, Save(w, true), mixed);
  }

  /** A call that is ready can be claimed and brought to ring. */
  lemma RingsUp(s: State, id: string, mixed: set<string>) returns (run: seq<Step>, t: State)
    requires Ready(s, id) && (Requested(s, id) ==> id in mixed)
    ensures Leads(s, run, t, mixed) && DialledOnce(s, t, Ring(Claim(s.calls[id], 0), "", 0))
  {
    hide Leads;
    var c := Claim(s.calls[id], 0);
    LeadsNowhere(s, mixed);
    LeadsOn(s, [], s, ClaimNext(0, id, 0), mixed);
    run := [] + [ClaimNext(0, id, 0)];
    var claimed := AfterClaim(s, 0, id, 0);
    assert ActiveOf(claimed.calls, c.campaignId, c.id) == ActiveOf(s.calls, c.campaignId, c.id);
    hide Claimable, ActiveOf, Ring;
    RingKeepsTrace(c, "", 0);
    var more;
    more, t := Dials(claimed, c, mixed);
    LeadsFurther(s, run, claimed, more, t, mixed);
    run := run + more;
  }

  // ---------------------------------------------------------------- one line too many

  const PAIR: Graph :=
    Graph("a", [Node("a", "x"), Node("b", "y")], [Edge("a", "b", 0, Condition("f", "exists", ""))])

  function Waiting(id: string): Call {
    Call(id, "k", id, Pending, 0, 1, 0, None, PAIR, "a", [], "", None, None)
  }

  /** A new call of a campaign with a free line can be brought to ring. */
  lemma NewRings(s: State, id: string) returns (run: seq<Step>, t: State)
    requires s.workers == map[] && id !in s.calls && !KeyTaken(s, id) && !Requested(s, id)
    requires |ActiveOf(s.calls, "k", id)| < Limit(s, "k")
    ensures Leads(s, run, t, {})
    ensures t.calls == s.calls[id := Ring(Claim(Waiting(id), 0), "", 0)]
    ensures t.workers == map[] && t.requests == s.requests && t.limits == s.limits
  {
    var c := Waiting(id);
    var stored := Insert(s, c);
    Arrived(s, id);
    RingKeepsTrace(Claim(c, 0), "", 0);
    hide Leads, Ring, ActiveOf, KeyTaken, Ready, Claim, Waiting;
    run, t := RingsUp(stored, id, {});
    LeadsFurther(s, [] + [Schedule(c)], stored, run, t, {});
    run := [] + [Schedule(c)] + run;
    assert stored.calls[id := t.calls[id]] == s.calls[id := t.calls[id]];
  }

  lemma Arrived(s: State, id: string)
    requires s.workers == map[] && id !in s.calls && !KeyTaken(s, id) && !Requested(s, id)
    requires |ActiveOf(s.calls, "k", id)| < Limit(s, "k")
    ensures var t := Insert(s, Waiting(id));
            && Leads(s, [] + [Schedule(Waiting(id))], t, {}) && Ready(t, id) && !Requested(t, id)
            && t.calls == s.calls[id := Waiting(id)]
  {
    var t := Insert(s, Waiting(id));
    LeadsNowhere(s, {});
    LeadsOn(s, [], s, Schedule(Waiting(id)), {}) by { hide ActiveOf, Leads; }
    assert ActiveOf(t.calls, "k", id) == ActiveOf(s.calls, "k", id);
    hide Leads, KeyTaken;
  }

  /** The first call has rung and is completed while a handoff still holds it ringing. */
  ghost predicate HeldRinging(t: State) {
    && t.workers == map[] && t.limits == map["k" := 1]
    && t.calls.Keys == {"1"} && t.calls["1"].status == Completed && t.calls["1"].idempotencyKey == "1"
    && t.requests.Keys == {0}
    && var c := t.requests[0].next; c.id == "1" && c.campaignId == "k" && c.status == Ringing
  }

  lemma EndsWhileHeld(s: State) returns (run: seq<Step>, t: State)
    requires s.workers == map[] && s.requests == map[] && s.limits == map["k" := 1] && CanMove(s, "1", "b")
    requires s.calls.Keys == {"1"} && s.calls["1"].campaignId == "k" && s.calls["1"].idempotencyKey == "1"
    requires s.calls["1"].status == Ringing
    ensures Leads(s, run, t, {}) && HeldRinging(t)
  {
    run, t := OverlapEnds(s, "1", "b", 0, 1);
    hide Leads, CanMove, MovedTo, TraceSound, HandoffsIn;
  }

  lemma FirstRings() returns (s: State, run: seq<Step>, t: State)
    ensures Start(s) && Limit(s, "k") == 1 && Leads(s, run, t, {}) && HeldRinging(t)
  {
    s := State(map[], map[], map[], map["k" := 1], {}, {}, map[]);
    assert ActiveOf(s.calls, "k", "1") == {};
    var rung, more;
    run, rung := NewRings(s, "1");
    RingMoves();
    hide Leads, HeldRinging, Handoff, ActiveOf, Ring, Claim, Waiting;
    more, t := EndsWhileHeld(rung);
    LeadsFurther(s, run, rung, more, t, {});
    run := run + more;
  }

  lemma RingMoves()
    ensures var c := Ring(Claim(Waiting("1"), 0), "", 0);
            && c.id == "1" && c.campaignId == "k" && c.idempotencyKey == "1" && c.status == Ringing
            && Handoff(c, c.currentNodeKey, "b", "", 0).Ok?
  {
  }

  /** A campaign of one line can have two calls ringing: the first is completed between the
      read and the save of a handoff, and the second is dialled before that save brings the
      first back to ringing. */
  lemma OverlapBreaksLineLimit() returns (s: State, run: seq<Step>, before: State, last: Step, t: State)
    ensures Start(s) && Limit(s, "k") == 1
    ensures Leads(s, run, before, {}) && Leads(s, run + [last], t, {}) && RingsAgain(before, last, "1")
    ensures RingingOf(t, "k") == {"1", "2"}
  {
    var ended, more;
    s, run, ended := FirstRings();
    assert ActiveOf(ended.calls, "k", "2") == {};
    more, before := NewRings(ended, "2");
    RingKeepsTrace(Claim(Waiting("2"), 0), "", 0);
    var c := before.calls["2"];
    assert c.campaignId == "k" && c.status == Ringing;
    hide Ring, Leads, Waiting, Claim, Limit, ActiveOf;
    LeadsFurther(s, run, ended, more, before, {});
    run, last := run + more, SaveRequest(0, true);
    RequestMeans(before, 0);
    SavesOn(s, run, before, {}, 0);
    t := AfterRequest(before, 0, true);
    hide AfterRequest;
    assert t.calls == before.calls["1" := before.requests[0].next] && t.calls.Keys == {"1", "2"};
  }

  // ---------------------------------------------------------------- dialled without end

  /** `n` open requests that have read the call and would all save document `c`. */
  function Pile(read: Call, c: Call, n: nat): (requests: map<nat, Request>)
    ensures forall q :: q in requests ==> q < n
  {
    if n == 0 then map[] else Pile(read, c, n - 1)[n - 1 := Request(read, c)]
  }

  lemma {:induction false} ReadsPile(s: State, id: string, to: string, n: nat) returns (run: seq<Step>, t: State)
    requires CanMove(s, id, to) && s.requests == map[]
    ensures Leads(s, run, t, {}) && t == s.(requests := Pile(s.calls[id], MovedTo(s, id, to), n))
  {
    hide Leads, Handoff, HandedOff;
    if n == 0 {
      run, t := [], s;
      LeadsNowhere(s, {});
    } else {
      var u;
      run, u := ReadsPile(s, id, to, n - 1);
      ReadsOn(s, run, u, {}, id, to, n - 1);
      run, t := run + [HandoffTo(u, n - 1, id, to)], AfterRead(u, n - 1, id, MovedTo(s, id, to));
    }
  }

  lemma PileShrinks(read: Call, c: Call, n: nat)
    requires n > 0
    ensures n - 1 in Pile(read, c, n) && Pile(read, c, n)[n - 1] == Request(read, c)
    ensures Pile(read, c, n) - {n - 1} == Pile(read, c, n - 1)
  {
  }

  lemma StaysReady(s: State, t: State, id: string, c: Call)
    requires Ready(s, id) && c.id == id && c.campaignId == s.calls[id].campaignId && Claimable(c, 0)
    requires t.calls == s.calls[id := c] && t.workers == map[] && t.limits == s.limits
    ensures Ready(t, id)
  {
    assert ActiveOf(t.calls, c.campaignId, id) == ActiveOf(s.calls, c.campaignId, id);
  }

  /** A dial and then a save that makes the call wait again, as if it had not been dialled. */
  lemma DialsAndForgets(s: State, id: string, read: Call, c: Call, n: nat) returns (run: seq<Step>, t: State)
    requires Ready(s, id) && s.requests == Pile(read, c, n) && n > 0
    requires c.id == id && c.campaignId == s.calls[id].campaignId && Claimable(c, 0)
    ensures Leads(s, run, t, {id}) && Ready(t, id) && t.requests == Pile(read, c, n - 1) && t.calls[id] == c
    ensures TallyOf(t.tallies, id).dials == TallyOf(s.tallies, id).dials + 1
  {
    var u;
    run, u := RingsUp(s, id, {id});
    RingKeepsTrace(Claim(s.calls[id], 0), "", 0);
    PileShrinks(read, c, n);
    RequestMeans(u, n - 1);
    hide Leads, Ring, Pile, Ready, AfterRequest;
    SavesOn(s, run, u, {id}, n - 1);
    run, t := run + [SaveRequest(n - 1, true)], AfterRequest(u, n - 1, true);
    assert t.calls == s.calls[id := c];
    StaysReady(s, t, id, c);
  }

  lemma {:induction false} DialsPile(s: State, id: string, read: Call, c: Call, n: nat)
    returns (run: seq<Step>, t: State)
    requires Ready(s, id) && s.requests == Pile(read, c, n)
    requires c.id == id && c.campaignId == s.calls[id].campaignId && Claimable(c, 0)
    ensures Leads(s, run, t, {id}) && id in t.calls && t.calls[id] == if n > 0 then c else s.calls[id]
    ensures TallyOf(t.tallies, id).dials == TallyOf(s.tallies, id).dials + n
    decreases n
  {
    if n == 0 {
      run, t := [], s;
      LeadsNowhere(s, {id});
    } else {
      var u, more;
      run, u := DialsAndForgets(s, id, read, c, n);
      hide Leads, Claimable, TallyOf, Pile;
      more, t := DialsPile(u, id, read, c, n - 1);
      LeadsFurther(s, run, u, more, t, {id});
      run := run + more;
    }
  }

  /** Any waiting call that can be handed off can be dialled any number of times without
      spending an attempt, by handoffs that read it while it waits and save after a dial. */
  lemma OverlapDialsWithoutEnd(s: State, id: string, to: string, n: nat) returns (run: seq<Step>, t: State)
    requires Ready(s, id) && CanMove(s, id, to) && s.requests == map[] && n > 0
    ensures Leads(s, run, t, {id}) && id in t.calls
    ensures TallyOf(t.tallies, id).dials == TallyOf(s.tallies, id).dials + n
    ensures t.calls[id].status == Pending && t.calls[id].attempt == s.calls[id].attempt
    ensures t.calls[id].maxAttempts == s.calls[id].maxAttempts
  {
    var u, more;
    run, u := ReadsPile(s, id, to, n);
    var c := s.calls[id];
    HandoffMeans(c, c.currentNodeKey, to, "", 0);
    assert u.calls == s.calls && u.workers == map[] && u.limits == s.limits && u.tallies == s.tallies;
    hide Leads, Handoff, Pile, TraceSound, HandoffsIn;
    assert Ready(u, id);
    more, t := DialsPile(u, id, c, MovedTo(s, id, to), n);
    LeadsMixed(s, run, u, id);
    LeadsFurther(s, run, u, more, t, {id});
    run := run + more;
  }

  lemma LeadsMixed(s: State, run: seq<Step>, t: State, id: string)
    requires Leads(s, run, t, {})
    ensures Leads(s, run, t, {id})
  {
  }

  /** So a call of MaxAttempts 1 can be dialled any number of times. */
  lemma OverlapBreaksAttemptBound(n: nat) returns (s: State, run: seq<Step>, t: State)
    requires n > 0
    ensures Start(s) && Leads(s, run, t, {"1"})
    ensures "1" in t.calls && t.calls["1"].maxAttempts == 1 && TallyOf(t.tallies, "1").dials == n
  {
    s := State(map[], map[], map[], map["k" := 1], {}, {}, map[]);
    var c := Waiting("1");
    LeadsNowhere(s, {});
    LeadsOn(s, [], s, Schedule(c), {}) by { hide Leads; }
    var u, more := Insert(s, c), [];
    assert ActiveOf(u.calls, "k", "1") == {};
    WaitingMoves();
    assert Ready(u, "1") && CanMove(u, "1", "b");
    hide Leads, Ready, CanMove, Handoff;
    run := [] + [Schedule(c)];
    more, t := OverlapDialsWithoutEnd(u, "1", "b", n);
    LeadsMixed(s, run, u, "1");
    LeadsFurther(s, run, u, more, t, {"1"});
    run := run + more;
  }

  lemma WaitingMoves()
    ensures Handoff(Waiting("1"), "a", "b", "", 0).Ok? && Waiting("1").currentNodeKey == "a"
  {
  }
}
