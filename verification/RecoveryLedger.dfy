/** What a checkout-recovery run has to record of its lookups, bookings and activity, batch
    by batch, for any answers of the services; and that these records add up. */
module RecoveryLedger {
  import opened Sorting
  import opened RecoveryRows
  import opened Wrappers

  /** The `index` field of a reply: not there, there but no whole number, or a number. */
  datatype Index = Absent | NotANumber | At(i: int)

  datatype ScheduleReply = ScheduleReply(index: Index, status: string, callId: string)
  datatype ActivityReply = ActivityReply(index: Index, ok: bool, code: string)

  /** A list of replies, whatever they are, or an error of the service as a whole. */
  datatype Answer<+T> = Answered(replies: seq<T>) | Broken(code: string, retryable: bool)

  /** All the outside: the size checks (None when an item fits) and the answer to every batch. */
  datatype World = World(
    itemFits: Row -> Option<string>, activityFits: Row -> Option<string>,
    lookup: nat -> Answer<LookupResult>, schedule: nat -> Answer<ScheduleReply>, activity: nat -> Answer<ActivityReply>)

  datatype Booking = Booking(row: Row, callId: string, status: string)

  datatype SourceCounts = SourceCounts(fetched: nat, valid: nat, invalid: nat, deduplicated: nat)
  datatype ScheduleCounts = ScheduleCounts(submitted: nat, scheduled: nat, already: nat, skipped: nat, failed: nat)
  datatype ActivityCounts = ActivityCounts(submitted: nat, succeeded: nat, failed: nat)

  datatype Status = Running | OutsideWindow | Completed | CompletedWithErrors | Failed

  function Replies<T>(a: Answer<T>): seq<T> {
    if a.Answered? then a.replies else []
  }

  // ---------------------------------------------------------------- lookup over batches

  function AllVerdicts(batches: seq<seq<Row>>, lookup: nat -> Answer<LookupResult>): (v: seq<Verdict>)
    ensures |v| == |Flatten(batches)|
  {
    if batches == [] then []
    else
      var n := |batches| - 1;
      assert batches == batches[..n] + [batches[n]];
      FlattenLast(batches[..n], batches[n]);
      AllVerdicts(batches[..n], lookup) + Verdicts(batches[n], Replies(lookup(n)))
  }

  function Plus(a: LookupCounts, b: LookupCounts): LookupCounts {
    LookupCounts(a.submitted + b.submitted, a.eligible + b.eligible, a.completed + b.completed,
                 a.stale + b.stale, a.active + b.active, a.errors + b.errors)
  }

  lemma SplitLast<T>(a: seq<T>, b: seq<T>)
    requires b != []
    ensures var n := |b| - 1;
            b == b[..n] + [b[n]] && a + b == a + b[..n] + [b[n]]
  {
  }

  lemma TallyLast(v: seq<Verdict>, x: Verdict)
    ensures Tally(v + [x]) == Counted(Tally(v), x)
  {
    hide Counted;
    assert (v + [x])[..|v|] == v;
  }

  lemma {:induction false} TallyConcat(v: seq<Verdict>, w: seq<Verdict>)
    ensures Tally(v + w) == Plus(Tally(v), Tally(w))
  {
    if w == [] {
      assert v + w == v;
    } else {
      var n := |w| - 1;
      TallyConcat(v, w[..n]);
      TallyLast(w[..n], w[n]);
      TallyLast(v + w[..n], w[n]);
      SplitLast(v, w);
      hide Tally;
      PlusCounted(Tally(v), Tally(w[..n]), w[n]);
    }
  }

  lemma PlusCounted(a: LookupCounts, b: LookupCounts, v: Verdict)
    ensures Counted(Plus(a, b), v) == Plus(a, Counted(b, v))
  {
  }

  lemma PickedLast(rows: seq<Row>, v: seq<Verdict>, row: Row, x: Verdict)
    requires |rows| == |v|
    ensures Picked(rows + [row], v + [x]) == Picked(rows, v) + (if x.Eligible? then [row] else [])
    ensures LookupIssues(rows + [row], v + [x]) ==
            LookupIssues(rows, v)
            + (if x.Unanswered? then [Issue(Some(row.externalId), "lookup", x.code, false)] else [])
  {
    hide Tally;
    assert (v + [x])[..|v|] == v && (rows + [row])[..|rows|] == rows;
  }

  lemma NothingPicked()
    ensures Picked([], []) == [] && LookupIssues([], []) == []
  {
  }

  lemma {:induction false} PickedConcat(a: seq<Row>, v: seq<Verdict>, b: seq<Row>, w: seq<Verdict>)
    requires |a| == |v| && |b| == |w|
    ensures Picked(a + b, v + w) == Picked(a, v) + Picked(b, w)
  {
    hide Tally, Picked;
    if w == [] {
      assert v + w == v && a + b == a;
      NothingPicked();
    } else {
      var n := |w| - 1;
      var b0, w0 := b[..n], w[..n];
      PickedConcat(a, v, b0, w0);
      PickedLast(b0, w0, b[n], w[n]);
      PickedLast(a + b0, v + w0, b[n], w[n]);
      SplitLast(a, b);
      SplitLast(v, w);
    }
  }

  lemma {:induction false} IssuesConcat(a: seq<Row>, v: seq<Verdict>, b: seq<Row>, w: seq<Verdict>)
    requires |a| == |v| && |b| == |w|
    ensures LookupIssues(a + b, v + w) == LookupIssues(a, v) + LookupIssues(b, w)
  {
    hide Tally, LookupIssues;
    if w == [] {
      assert v + w == v && a + b == a;
      NothingPicked();
    } else {
      var n := |w| - 1;
      var b0, w0 := b[..n], w[..n];
      IssuesConcat(a, v, b0, w0);
      PickedLast(b0, w0, b[n], w[n]);
      PickedLast(a + b0, v + w0, b[n], w[n]);
      SplitLast(a, b);
      SplitLast(v, w);
    }
  }

  lemma {:induction false} PickedDistinct(rows: seq<Row>, verdicts: seq<Verdict>)
    requires |rows| == |verdicts| && DistinctBy(rows, (r: Row) => r.phone)
    ensures DistinctBy(Picked(rows, verdicts), (r: Row) => r.phone)
  {
    if rows != [] {
      var n := |rows| - 1;
      PickedDistinct(rows[..n], verdicts[..n]);
      assert forall r :: r in Picked(rows[..n], verdicts[..n]) ==> r in rows[..n] && r.phone != rows[n].phone;
    }
  }

  // ---------------------------------------------------------------- one scheduling batch

  function Fitting(batch: seq<Row>, fits: Row -> Option<string>): (rows: seq<Row>)
    ensures |rows| <= |batch| && forall r :: r in rows ==> r in batch
  {
    if batch == [] then []
    else
      var n := |batch| - 1;
      Fitting(batch[..n], fits) + (if fits(batch[n]) == None then [batch[n]] else [])
  }

  function TooLarge(batch: seq<Row>, fits: Row -> Option<string>): (issues: seq<Issue>)
    ensures |issues| + |Fitting(batch, fits)| == |batch|
  {
    if batch == [] then []
    else
      var n := |batch| - 1;
      TooLarge(batch[..n], fits)
      + (if fits(batch[n]).Some? then [Issue(Some(batch[n].externalId), "schedule", fits(batch[n]).value, false)]
          else [])
  }

  /** A reply for a row of the batch that none of `earlier` was for. */
  predicate Takes(earlier: seq<ScheduleReply>, reply: ScheduleReply, n: nat) {
    reply.index.At? && 0 <= reply.index.i < n && forall h :: h in earlier ==> h.index != reply.index
  }

  /** The replies that are acted upon: the first for each row of the batch. */
  function Handled(replies: seq<ScheduleReply>, n: nat): (handled: seq<ScheduleReply>)
    ensures |handled| <= |replies|
    ensures forall h :: h in handled ==> h.index.At? && 0 <= h.index.i < n
    ensures DistinctBy(handled, (h: ScheduleReply) => h.index)
  {
    if replies == [] then []
    else
      var last := |replies| - 1;
      var handled := Handled(replies[..last], n);
      if Takes(handled, replies[last], n) then handled + [replies[last]] else handled
  }

  /** Replies that fit no row, or a row already answered. */
  function Strays(replies: seq<ScheduleReply>, n: nat): nat {
    |replies| - |Handled(replies, n)|
  }

  predicate FirstFor(replies: seq<ScheduleReply>, n: nat, k: nat)
    requires k < |replies|
  {
    && replies[k].index.At? && 0 <= replies[k].index.i < n
    && forall j :: 0 <= j < k ==> replies[j].index != replies[k].index
  }

  ghost predicate IsFirst(replies: seq<ScheduleReply>, n: nat, reply: ScheduleReply) {
    exists k :: 0 <= k < |replies| && replies[k] == reply && FirstFor(replies, n, k)
  }

  /** A row's fate is decided by its first reply and by no other. */
  lemma {:induction false} HandledAreFirst(replies: seq<ScheduleReply>, n: nat, reply: ScheduleReply)
    ensures reply in Handled(replies, n) <==> IsFirst(replies, n, reply)
  {
    hide IsFirst, FirstFor, Takes;
    if replies == [] {
      NoneIsFirst(n, reply);
    } else {
      HandledAreFirst(replies[..|replies| - 1], n, reply);
      TakesIffFirst(replies, n);
      IsFirstNext(replies, n, reply);
    }
  }

  lemma NoneIsFirst(n: nat, reply: ScheduleReply)
    ensures !IsFirst([], n, reply)
  {
  }

  lemma IsFirstNext(replies: seq<ScheduleReply>, n: nat, reply: ScheduleReply)
    requires replies != []
    ensures var last := |replies| - 1;
            IsFirst(replies, n, reply) <==>
            IsFirst(replies[..last], n, reply) || (replies[last] == reply && FirstFor(replies, n, last))
  {
    var last := |replies| - 1;
    var before := replies[..last];
    forall k | 0 <= k < last
      ensures FirstFor(before, n, k) <==> FirstFor(replies, n, k)
      ensures before[k] == replies[k]
    {
      assert forall j :: 0 <= j <= k ==> before[j] == replies[j];
    }
    hide FirstFor;
  }

  lemma TakesIffFirst(replies: seq<ScheduleReply>, n: nat)
    requires replies != []
    ensures var last := |replies| - 1;
            Takes(Handled(replies[..last], n), replies[last], n) <==> FirstFor(replies, n, last)
  {
    var last := |replies| - 1;
    var before := replies[..last];
    var index := replies[last].index;
    AnswersSomewhere(before, n, index);
    if !FirstFor(replies, n, last) && index.At? && 0 <= index.i < n {
      var j :| 0 <= j < last && replies[j].index == index;
      assert before[j].index == index;
    }
    if FirstFor(replies, n, last) {
      assert forall j :: 0 <= j < |before| ==> before[j] == replies[j];
    }
  }

  lemma {:induction false} AnswersSomewhere(replies: seq<ScheduleReply>, n: nat, index: Index)
    ensures index.At? && 0 <= index.i < n ==>
              ((exists r :: r in replies && r.index == index) <==>
                  (exists h :: h in Handled(replies, n) && h.index == index))
    ensures forall h :: h in Handled(replies, n) ==> h in replies
  {
    if replies != [] {
      var last := |replies| - 1;
      AnswersSomewhere(replies[..last], n, index);
      assert replies == replies[..last] + [replies[last]];
    }
  }

  datatype Outcome = Scheduled | AlreadyScheduled | Skipped(reason: string) | NotScheduled(reason: string)

  function OutcomeOf(reply: ScheduleReply): Outcome {
    if reply.status == "scheduled" && reply.callId != "" then Scheduled
    else if reply.status == "already_scheduled" && reply.callId != "" then AlreadyScheduled
    else if "skipped" <= reply.status then Skipped(Clip(reply.status, ""))
    else NotScheduled(Clip(reply.status, "schedule_failed"))
  }

  function Count(c: ScheduleCounts, o: Outcome): ScheduleCounts {
    match o
    case Scheduled => c.(scheduled := c.scheduled + 1)
    case AlreadyScheduled => c.(already := c.already + 1)
    case Skipped(_) => c.(skipped := c.skipped + 1)
    case NotScheduled(_) => c.(failed := c.failed + 1)
  }

  function Total(c: ScheduleCounts): nat {
    c.scheduled + c.already + c.skipped + c.failed
  }

  /** The counters after every reply: handled ones by their outcome, strays as failures. */
  function CountReplies(c: ScheduleCounts, replies: seq<ScheduleReply>, n: nat): (d: ScheduleCounts)
    ensures Total(d) == Total(c) + |replies| && d.submitted == c.submitted
    ensures d.scheduled + d.already == c.scheduled + c.already + |Booked(replies, n)|
  {
    if replies == [] then c
    else
      var last := |replies| - 1;
      var before := CountReplies(c, replies[..last], n);
      if Takes(Handled(replies[..last], n), replies[last], n) then Count(before, OutcomeOf(replies[last]))
      else before.(failed := before.failed + 1)
  }

  /** The replies that book a call. */
  function Booked(replies: seq<ScheduleReply>, n: nat): (booked: seq<ScheduleReply>)
    ensures forall b :: b in booked ==> b in Handled(replies, n)
    ensures DistinctBy(booked, (b: ScheduleReply) => b.index)
  {
    if replies == [] then []
    else
      var last := |replies| - 1;
      var before := Booked(replies[..last], n);
      var o := OutcomeOf(replies[last]);
      if Takes(Handled(replies[..last], n), replies[last], n) && (o.Scheduled? || o.AlreadyScheduled?)
      then before + [replies[last]] else before
  }

  /** One issue per reply that books nothing; `ids` are the batch's external ids. */
  function ReplyIssues(replies: seq<ScheduleReply>, ids: seq<string>): seq<Issue> {
    if replies == [] then []
    else
      var last := |replies| - 1;
      var r := replies[last];
      ReplyIssues(replies[..last], ids) +
      (if !Takes(Handled(replies[..last], |ids|), r, |ids|)
          then [Issue(None, "schedule", "invalid_result_index", false)]
       else match OutcomeOf(r)
         case Skipped(reason) => [Issue(Some(ids[r.index.i]), "schedule", reason, false)]
         case NotScheduled(reason) => [Issue(Some(ids[r.index.i]), "schedule", reason, false)]
         case _ => [])
  }

  lemma {:induction false} IssuePerFailure(c: ScheduleCounts, replies: seq<ScheduleReply>, ids: seq<string>)
    ensures var d := CountReplies(c, replies, |ids|);
            d.skipped + d.failed == c.skipped + c.failed + |ReplyIssues(replies, ids)|
  {
    if replies != [] {
      IssuePerFailure(c, replies[..|replies| - 1], ids);
    }
  }

  function Bookings(booked: seq<ScheduleReply>, prepared: seq<Row>): (b: seq<Booking>)
    requires forall r :: r in booked ==> r.index.At? && 0 <= r.index.i < |prepared|
    ensures |b| == |booked|
    ensures forall i :: 0 <= i < |b| ==>
              b[i] == Booking(prepared[booked[i].index.i], booked[i].callId, booked[i].status)
  {
    seq(|booked|, i requires 0 <= i < |booked| && booked[i] in booked =>
      Booking(prepared[booked[i].index.i], booked[i].callId, booked[i].status))
  }

  function IndexSet(handled: seq<ScheduleReply>): set<int> {
    set h | h in handled && h.index.At? :: h.index.i
  }

  /** One issue for every row below `n` that no reply was for. */
  function MissingIssues(ids: seq<string>, answered: set<int>): (issues: seq<Issue>)
    ensures |issues| <= |ids|
  {
    if ids == [] then []
    else
      var n := |ids| - 1;
      MissingIssues(ids[..n], answered)
      + (if n in answered then [] else [Issue(Some(ids[n]), "schedule", "missing_result", true)])
  }

  lemma {:induction false} MissingComplement(ids: seq<string>, answered: set<int>)
    requires forall i :: i in answered ==> 0 <= i < |ids|
    ensures |MissingIssues(ids, answered)| + |answered| == |ids|
  {
    if ids == [] {
      assert forall i :: i !in answered;
    } else {
      var n := |ids| - 1;
      MissingComplement(ids[..n], answered - {n});
      MissingSame(ids[..n], answered, n);
    }
  }

  lemma {:induction false} MissingSame(ids: seq<string>, answered: set<int>, extra: int)
    requires extra >= |ids|
    ensures MissingIssues(ids, answered) == MissingIssues(ids, answered - {extra})
  {
    if ids != [] {
      MissingSame(ids[..|ids| - 1], answered, extra);
    }
  }

  lemma {:induction false} HandledIndexes(handled: seq<ScheduleReply>)
    requires DistinctBy(handled, (h: ScheduleReply) => h.index) && forall h :: h in handled ==> h.index.At?
    ensures |IndexSet(handled)| == |handled|
  {
    if handled != [] {
      var n := |handled| - 1;
      HandledIndexes(handled[..n]);
      assert handled == handled[..n] + [handled[n]];
      assert IndexSet(handled) == IndexSet(handled[..n]) + {handled[n].index.i};
      assert handled[n].index.i !in IndexSet(handled[..n]);
    } else {
      assert IndexSet(handled) == {};
    }
  }

  function Ids(rows: seq<Row>): (ids: seq<string>)
    ensures |ids| == |rows|
  {
    Map(rows, (r: Row) => r.externalId)
  }

  lemma HandledFits(replies: seq<ScheduleReply>, n: nat)
    ensures |Handled(replies, n)| <= n
  {
    var handled := Handled(replies, n);
    HandledIndexes(handled);
    MissingComplement(seq(n, _ => ""), IndexSet(handled));
  }

  /** The counters after one batch; too large rows are skipped, unanswered ones failed. */
  function CountBatch(c: ScheduleCounts, batch: seq<Row>, replies: seq<ScheduleReply>, fits: Row -> Option<string>):
    (d: ScheduleCounts)
    ensures Total(d) == Total(c) + |batch| + BatchStrays(batch, replies, fits)
    ensures d.scheduled + d.already == c.scheduled + c.already + |BatchBookings(batch, replies, fits)|
    ensures d.skipped + d.failed == c.skipped + c.failed + |BatchIssues(batch, replies, fits)|
  {
    var prepared := Fitting(batch, fits);
    var n := |prepared|;
    var tooLarge := c.(skipped := c.skipped + |batch| - n);
    HandledFits(replies, n);
    IssuePerFailure(tooLarge.(submitted := c.submitted + n), replies, Ids(prepared));
    HandledIndexes(Handled(replies, n));
    MissingComplement(Ids(prepared), IndexSet(Handled(replies, n)));
    if n == 0 then tooLarge
    else
      var answered := CountReplies(tooLarge.(submitted := c.submitted + n), replies, n);
      answered.(failed := answered.failed + n - |Handled(replies, n)|)
  }

  function BatchStrays(batch: seq<Row>, replies: seq<ScheduleReply>, fits: Row -> Option<string>): nat {
    var n := |Fitting(batch, fits)|;
    if n == 0 then 0 else Strays(replies, n)
  }

  function BatchBookings(batch: seq<Row>, replies: seq<ScheduleReply>, fits: Row -> Option<string>): (b: seq<Booking>)
    ensures forall k :: k in b ==> k.row in batch
  {
    var prepared := Fitting(batch, fits);
    if prepared == [] then [] else Bookings(Booked(replies, |prepared|), prepared)
  }

  function BatchIssues(batch: seq<Row>, replies: seq<ScheduleReply>, fits: Row -> Option<string>): seq<Issue> {
    var prepared := Fitting(batch, fits);
    TooLarge(batch, fits)
    + (if prepared == [] then []
       else ReplyIssues(replies, Ids(prepared)) + MissingIssues(Ids(prepared), IndexSet(Handled(replies, |prepared|))))
  }

  lemma {:induction false} FittingDistinct(batch: seq<Row>, fits: Row -> Option<string>)
    requires DistinctBy(batch, (r: Row) => r.phone)
    ensures DistinctBy(Fitting(batch, fits), (r: Row) => r.phone)
  {
    if batch != [] {
      var n := |batch| - 1;
      FittingDistinct(batch[..n], fits);
      assert forall r :: r in Fitting(batch[..n], fits) ==> r in batch[..n] && r.phone != batch[n].phone;
    }
  }

  /** Whatever comes back, one batch books no phone twice. */
  lemma BatchBooksOnce(batch: seq<Row>, replies: seq<ScheduleReply>, fits: Row -> Option<string>)
    requires DistinctBy(batch, (r: Row) => r.phone)
    ensures DistinctBy(BatchBookings(batch, replies, fits), (b: Booking) => b.row.phone)
  {
    var prepared := Fitting(batch, fits);
    FittingDistinct(batch, fits);
    if prepared != [] {
      var booked := Booked(replies, |prepared|);
      var b := Bookings(booked, prepared);
      hide Booked, Handled, Fitting;
      forall i, j | 0 <= i < j < |b|
        ensures b[i].row.phone != b[j].row.phone
      {
        assert booked[i] in booked && booked[j] in booked;
      }
    }
  }

  // ---------------------------------------------------------------- scheduling over batches

  ghost predicate AllAnswered(batches: seq<seq<Row>>, world: World) {
    forall k :: 0 <= k < |batches| && Fitting(batches[k], world.itemFits) != [] ==> world.schedule(k).Answered?
  }

  function CountAll(batches: seq<seq<Row>>, world: World): ScheduleCounts {
    if batches == [] then ScheduleCounts(0, 0, 0, 0, 0)
    else
      var n := |batches| - 1;
      CountBatch(CountAll(batches[..n], world), batches[n], Replies(world.schedule(n)), world.itemFits)
  }

  function AllStrays(batches: seq<seq<Row>>, world: World): nat {
    if batches == [] then 0
    else
      var n := |batches| - 1;
      AllStrays(batches[..n], world) + BatchStrays(batches[n], Replies(world.schedule(n)), world.itemFits)
  }

  function AllBookings(batches: seq<seq<Row>>, world: World): (b: seq<Booking>)
    ensures forall k :: k in b ==> k.row in Flatten(batches)
  {
    if batches == [] then []
    else
      var n := |batches| - 1;
      assert batches == batches[..n] + [batches[n]];
      FlattenLast(batches[..n], batches[n]);
      AllBookings(batches[..n], world) + BatchBookings(batches[n], Replies(world.schedule(n)), world.itemFits)
  }

  function AllScheduleIssues(batches: seq<seq<Row>>, world: World): seq<Issue> {
    if batches == [] then []
    else
      var n := |batches| - 1;
      AllScheduleIssues(batches[..n], world) + BatchIssues(batches[n], Replies(world.schedule(n)), world.itemFits)
  }

  lemma {:induction false} FlattenSplit<T>(batches: seq<seq<T>>, k: nat)
    requires k <= |batches|
    ensures Flatten(batches) == Flatten(batches[..k]) + Flatten(batches[k..])
    decreases |batches| - k
  {
    if k < |batches| {
      FlattenSplit(batches, k + 1);
      assert batches[..k + 1] == batches[..k] + [batches[k]] && batches[k..][1..] == batches[k + 1..];
      FlattenLast(batches[..k], batches[k]);
      FlattenFirst(batches[k..]);
    } else {
      assert batches[..k] == batches;
    }
  }

  lemma FlattenFirst<T>(batches: seq<seq<T>>)
    requires batches != []
    ensures Flatten(batches) == batches[0] + Flatten(batches[1..])
  {
  }

  /** The bookings of the batches before the one at which the service broke, or of all. */
  ghost predicate BookedSoFar(b: seq<Booking>, batches: seq<seq<Row>>, world: World) {
    exists k :: BookedUpTo(b, batches, world, k)
  }

  ghost predicate BookedUpTo(b: seq<Booking>, batches: seq<seq<Row>>, world: World, k: int) {
    0 <= k <= |batches| && b == AllBookings(batches[..k], world)
  }

  /** A run that breaks off has booked no phone twice either. */
  lemma SoFarBooksOnce(b: seq<Booking>, batches: seq<seq<Row>>, world: World)
    requires BookedSoFar(b, batches, world) && DistinctBy(Flatten(batches), (r: Row) => r.phone)
    ensures DistinctBy(b, (k: Booking) => k.row.phone)
    ensures forall k :: k in b ==> k.row in Flatten(batches)
  {
    hide AllBookings, Flatten, DistinctBy;
    var k :| BookedUpTo(b, batches, world, k);
    FlattenSplit(batches, k);
    DistinctParts(Flatten(batches[..k]), Flatten(batches[k..]), (r: Row) => r.phone);
    BooksOnce(batches[..k], world);
  }

  /** Every row and every stray reply is counted once, every booking and issue is listed once. */
  lemma {:induction false} ScheduleBalances(batches: seq<seq<Row>>, world: World)
    ensures var c := CountAll(batches, world);
            && Total(c) == |Flatten(batches)| + AllStrays(batches, world)
            && c.scheduled + c.already == |AllBookings(batches, world)|
            && c.skipped + c.failed == |AllScheduleIssues(batches, world)|
            && c.submitted == |Fitting(Flatten(batches), world.itemFits)|
  {
    hide CountBatch, BatchStrays, BatchBookings, BatchIssues, Total, Fitting;
    if batches == [] {
      NoCounts(world);
    } else {
      var n := |batches| - 1;
      assert batches == batches[..n] + [batches[n]];
      FlattenLast(batches[..n], batches[n]);
      FittingConcat(Flatten(batches[..n]), batches[n], world.itemFits);
      SubmitsFitting(CountAll(batches[..n], world), batches[n], Replies(world.schedule(n)), world.itemFits);
      ScheduleBalances(batches[..n], world);
    }
  }

  lemma NoCounts(world: World)
    ensures Total(CountAll([], world)) == 0 && Fitting([], world.itemFits) == []
  {
  }

  lemma SubmitsFitting(c: ScheduleCounts, batch: seq<Row>, replies: seq<ScheduleReply>, fits: Row -> Option<string>)
    ensures CountBatch(c, batch, replies, fits).submitted == c.submitted + |Fitting(batch, fits)|
  {
    hide Fitting, Handled;
  }

  lemma {:induction false} FittingConcat(a: seq<Row>, b: seq<Row>, fits: Row -> Option<string>)
    ensures Fitting(a + b, fits) == Fitting(a, fits) + Fitting(b, fits)
  {
    if b == [] {
      assert a + b == a;
    } else {
      var n := |b| - 1;
      assert (a + b)[..|a + b| - 1] == a + b[..n];
      FittingConcat(a, b[..n], fits);
    }
  }

  lemma {:induction false} FittingBookingsConcat(a: seq<Booking>, b: seq<Booking>, fits: Row -> Option<string>)
    ensures FittingBookings(a + b, fits) == FittingBookings(a, fits) + FittingBookings(b, fits)
  {
    if b == [] {
      assert a + b == a;
    } else {
      var n := |b| - 1;
      assert (a + b)[..|a + b| - 1] == a + b[..n];
      FittingBookingsConcat(a, b[..n], fits);
    }
  }

  lemma {:induction false} SubmittedMeans(batches: seq<seq<Booking>>, fits: Row -> Option<string>)
    ensures Submitted(batches, fits) == |FittingBookings(Flatten(batches), fits)|
  {
    if batches != [] {
      var n := |batches| - 1;
      assert batches == batches[..n] + [batches[n]];
      FlattenLast(batches[..n], batches[n]);
      FittingBookingsConcat(Flatten(batches[..n]), batches[n], fits);
      SubmittedMeans(batches[..n], fits);
      hide FittingBookings;
    }
  }

  /** Across all batches and any replies, no phone is booked twice. */
  lemma {:induction false} BooksOnce(batches: seq<seq<Row>>, world: World)
    requires DistinctBy(Flatten(batches), (r: Row) => r.phone)
    ensures DistinctBy(AllBookings(batches, world), (b: Booking) => b.row.phone)
  {
    hide BatchBookings;
    if batches != [] {
      var n := |batches| - 1;
      var before, last := Flatten(batches[..n]), batches[n];
      assert batches == batches[..n] + [last];
      FlattenLast(batches[..n], last);
      DistinctParts(before, last, (r: Row) => r.phone);
      BooksOnce(batches[..n], world);
      BatchBooksOnce(last, Replies(world.schedule(n)), world.itemFits);
      var a, b := AllBookings(batches[..n], world), BatchBookings(last, Replies(world.schedule(n)), world.itemFits);
      assert AllBookings(batches, world) == a + b;
      hide Flatten, AllBookings, DistinctBy;
      DistinctParts(a, b, (k: Booking) => k.row.phone);
    }
  }

  // ---------------------------------------------------------------- activity

  function FittingBookings(batch: seq<Booking>, fits: Row -> Option<string>): (prepared: seq<Booking>)
    ensures |prepared| <= |batch| && forall b :: b in prepared ==> b in batch
  {
    if batch == [] then []
    else
      var n := |batch| - 1;
      FittingBookings(batch[..n], fits) + (if fits(batch[n].row) == None then [batch[n]] else [])
  }

  function TooLargeBookings(batch: seq<Booking>, fits: Row -> Option<string>): (issues: seq<Issue>)
    ensures |issues| + |FittingBookings(batch, fits)| == |batch|
  {
    if batch == [] then []
    else
      var n := |batch| - 1;
      var row := batch[n].row;
      TooLargeBookings(batch[..n], fits)
      + (if fits(row).Some? then [Issue(Some(row.externalId), "activity_upsert", fits(row).value, false)] else [])
  }

  /** `k` is the last reply that names row `i`. */
  ghost predicate LastNaming(replies: seq<ActivityReply>, i: nat, k: int) {
    0 <= k < |replies| && replies[k].index == At(i) && forall j :: k < j < |replies| ==> replies[j].index != At(i)
  }

  /** The reply that counts for row `i`: the last one that names it; failing that, the one
      in its position, if that one has no index field at all. */
  function ReplyFor(replies: seq<ActivityReply>, i: nat): (r: Option<ActivityReply>)
    ensures forall k :: LastNaming(replies, i, k) ==> r == Some(replies[k])
    ensures (forall k :: !LastNaming(replies, i, k)) ==>
              r == if i < |replies| && replies[i].index.Absent? then Some(replies[i]) else None
  {
    if Named(replies, i).Some? then Named(replies, i)
    else if i < |replies| && replies[i].index.Absent? then Some(replies[i])
    else None
  }

  function Named(replies: seq<ActivityReply>, i: nat): (r: Option<ActivityReply>)
    ensures forall k :: LastNaming(replies, i, k) ==> r == Some(replies[k])
    ensures r.Some? ==> exists k :: LastNaming(replies, i, k)
  {
    if replies == [] then None
    else
      var n := |replies| - 1;
      var before := replies[..n];
      assert forall k :: 0 <= k < n ==> before[k] == replies[k];
      assert replies[n].index == At(i) ==> LastNaming(replies, i, n);
      assert replies[n].index != At(i) ==> forall k :: LastNaming(before, i, k) <==> LastNaming(replies, i, k);
      if replies[n].index == At(i) then Some(replies[n]) else Named(before, i)
  }

  predicate Succeeds(replies: seq<ActivityReply>, i: nat) {
    ReplyFor(replies, i).Some? && ReplyFor(replies, i).value.ok
  }

  /** The bookings whose activity was recorded. */
  function Confirmed(prepared: seq<Booking>, replies: seq<ActivityReply>): (b: seq<Booking>)
    ensures forall k :: k in b ==> k in prepared
  {
    if prepared == [] then []
    else
      var n := |prepared| - 1;
      Confirmed(prepared[..n], replies) + (if Succeeds(replies, n) then [prepared[n]] else [])
  }

  function FailureCode(replies: seq<ActivityReply>, i: nat): string {
    var code := if ReplyFor(replies, i) == None then "missing_result" else ReplyFor(replies, i).value.code;
    Clip(code, "bulk_upsert_failed")
  }

  function Unconfirmed(prepared: seq<Booking>, replies: seq<ActivityReply>): (issues: seq<Issue>)
    ensures |issues| + |Confirmed(prepared, replies)| == |prepared|
  {
    if prepared == [] then []
    else
      var n := |prepared| - 1;
      Unconfirmed(prepared[..n], replies)
      + (if Succeeds(replies, n) then []
         else [Issue(Some(prepared[n].row.externalId), "activity_upsert", FailureCode(replies, n), true)])
  }

  function BatchConfirmed(batch: seq<Booking>, replies: seq<ActivityReply>, fits: Row -> Option<string>):
    (b: seq<Booking>)
    ensures forall k :: k in b ==> k in batch
  {
    Confirmed(FittingBookings(batch, fits), replies)
  }

  function BatchUnconfirmed(batch: seq<Booking>, replies: seq<ActivityReply>, fits: Row -> Option<string>):
    (issues: seq<Issue>)
    ensures |issues| + |BatchConfirmed(batch, replies, fits)| == |batch|
  {
    TooLargeBookings(batch, fits) + Unconfirmed(FittingBookings(batch, fits), replies)
  }

  ghost predicate ActivityAnswered(batches: seq<seq<Booking>>, world: World) {
    forall k :: 0 <= k < |batches| && FittingBookings(batches[k], world.activityFits) != [] ==>
        world.activity(k).Answered?
  }

  function AllConfirmed(batches: seq<seq<Booking>>, world: World): seq<Booking> {
    if batches == [] then []
    else
      var n := |batches| - 1;
      AllConfirmed(batches[..n], world) + BatchConfirmed(batches[n], Replies(world.activity(n)), world.activityFits)
  }

  function AllUnconfirmed(batches: seq<seq<Booking>>, world: World): seq<Issue> {
    if batches == [] then []
    else
      var n := |batches| - 1;
      AllUnconfirmed(batches[..n], world) + BatchUnconfirmed(batches[n], Replies(world.activity(n)), world.activityFits)
  }

  function Submitted(batches: seq<seq<Booking>>, fits: Row -> Option<string>): nat {
    if batches == [] then 0
    else
      var n := |batches| - 1;
      Submitted(batches[..n], fits) + |FittingBookings(batches[n], fits)|
  }

  /** Every booking is either confirmed or listed with an issue, whatever came back. */
  lemma {:induction false} ActivityBalances(batches: seq<seq<Booking>>, world: World)
    ensures |AllConfirmed(batches, world)| + |AllUnconfirmed(batches, world)| == |Flatten(batches)|
    ensures forall b :: b in AllConfirmed(batches, world) ==> b in Flatten(batches)
  {
    hide BatchConfirmed, BatchUnconfirmed;
    if batches != [] {
      var n := |batches| - 1;
      assert batches == batches[..n] + [batches[n]];
      FlattenLast(batches[..n], batches[n]);
      ActivityBalances(batches[..n], world);
    }
  }

  lemma {:induction false} ConfirmedDistinct(prepared: seq<Booking>, replies: seq<ActivityReply>)
    requires DistinctBy(prepared, (b: Booking) => b.row.phone)
    ensures DistinctBy(Confirmed(prepared, replies), (b: Booking) => b.row.phone)
  {
    hide ReplyFor, Succeeds;
    if prepared != [] {
      var n := |prepared| - 1;
      ConfirmedDistinct(prepared[..n], replies);
      assert forall b :: b in Confirmed(prepared[..n], replies) ==>
          b in prepared[..n] && b.row.phone != prepared[n].row.phone;
    }
  }

  lemma {:induction false} FittingBookingsDistinct(batch: seq<Booking>, fits: Row -> Option<string>)
    requires DistinctBy(batch, (b: Booking) => b.row.phone)
    ensures DistinctBy(FittingBookings(batch, fits), (b: Booking) => b.row.phone)
  {
    if batch != [] {
      var n := |batch| - 1;
      FittingBookingsDistinct(batch[..n], fits);
      assert forall b :: b in FittingBookings(batch[..n], fits) ==>
          b in batch[..n] && b.row.phone != batch[n].row.phone;
    }
  }

  /** No checkout is marked twice in one run. */
  lemma {:induction false} ConfirmsOnce(batches: seq<seq<Booking>>, world: World)
    requires DistinctBy(Flatten(batches), (b: Booking) => b.row.phone)
    ensures DistinctBy(AllConfirmed(batches, world), (b: Booking) => b.row.phone)
  {
    hide Confirmed, FittingBookings;
    if batches != [] {
      var n := |batches| - 1;
      var before, last := Flatten(batches[..n]), batches[n];
      assert batches == batches[..n] + [last];
      FlattenLast(batches[..n], last);
      DistinctParts(before, last, (b: Booking) => b.row.phone);
      ConfirmsOnce(batches[..n], world);
      ActivityBalances(batches[..n], world);
      FittingBookingsDistinct(last, world.activityFits);
      ConfirmedDistinct(FittingBookings(last, world.activityFits), Replies(world.activity(n)));
      var a, b := AllConfirmed(batches[..n], world),
          BatchConfirmed(last, Replies(world.activity(n)), world.activityFits);
      assert AllConfirmed(batches, world) == a + b;
      hide Flatten, AllConfirmed, DistinctBy;
      DistinctParts(a, b, (k: Booking) => k.row.phone);
    }
  }

  ghost predicate MarkedSoFar(m: seq<Booking>, batches: seq<seq<Booking>>, world: World) {
    exists k :: MarkedUpTo(m, batches, world, k)
  }

  ghost predicate MarkedUpTo(m: seq<Booking>, batches: seq<seq<Booking>>, world: World, k: int) {
    0 <= k <= |batches| && m == AllConfirmed(batches[..k], world)
  }

  /** A run that breaks off has marked no checkout twice either, and only booked ones. */
  lemma SoFarConfirmsOnce(m: seq<Booking>, batches: seq<seq<Booking>>, world: World)
    requires MarkedSoFar(m, batches, world) && DistinctBy(Flatten(batches), (b: Booking) => b.row.phone)
    ensures DistinctBy(m, (b: Booking) => b.row.phone)
    ensures forall b :: b in m ==> b in Flatten(batches)
  {
    hide AllConfirmed, Flatten, DistinctBy;
    var k :| MarkedUpTo(m, batches, world, k);
    FlattenSplit(batches, k);
    DistinctParts(Flatten(batches[..k]), Flatten(batches[k..]), (b: Booking) => b.row.phone);
    ConfirmsOnce(batches[..k], world);
    ActivityBalances(batches[..k], world);
  }

  // ---------------------------------------------------------------- a whole run

  const MAX_BATCH: nat := 500

  function EligibleOf(rows: seq<Row>, world: World): (eligible: seq<Row>)
    ensures forall r :: r in eligible ==> r in rows
  {
    Picked(rows, AllVerdicts(Chunks(rows, MAX_BATCH), world.lookup))
  }

  function BookingsOf(rows: seq<Row>, world: World): (b: seq<Booking>)
    ensures forall k :: k in b ==> k.row in rows
  {
    AllBookings(Chunks(EligibleOf(rows, world), MAX_BATCH), world)
  }

  function MarksOf(rows: seq<Row>, world: World): seq<Booking> {
    AllConfirmed(Chunks(BookingsOf(rows, world), MAX_BATCH), world)
  }

  /** No service call of the run fails as a whole. */
  ghost predicate ServicesAnswer(rows: seq<Row>, world: World) {
    && (forall k :: 0 <= k < |Chunks(rows, MAX_BATCH)| ==> world.lookup(k).Answered?)
    && AllAnswered(Chunks(EligibleOf(rows, world), MAX_BATCH), world)
    && ActivityAnswered(Chunks(BookingsOf(rows, world), MAX_BATCH), world)
  }

  /** For any answers at all: every phone is booked once at most and marked once at most,
      only rows that were eligible are booked, and only booked ones are marked. */
  lemma OncePerPhone(rows: seq<Row>, world: World)
    requires DistinctBy(rows, (r: Row) => r.phone)
    ensures var eligible, b, m := EligibleOf(rows, world), BookingsOf(rows, world), MarksOf(rows, world);
            && DistinctBy(b, (k: Booking) => k.row.phone) && (forall k :: k in b ==> k.row in eligible)
            && DistinctBy(m, (k: Booking) => k.row.phone) && (forall k :: k in m ==> k in b)
  {
    hide AllVerdicts, Picked, AllBookings, AllConfirmed, DistinctBy, Chunks, Flatten;
    PickedDistinct(rows, AllVerdicts(Chunks(rows, MAX_BATCH), world.lookup));
    BooksOnce(Chunks(EligibleOf(rows, world), MAX_BATCH), world);
    ConfirmsOnce(Chunks(BookingsOf(rows, world), MAX_BATCH), world);
    ActivityBalances(Chunks(BookingsOf(rows, world), MAX_BATCH), world);
  }

  /** The four balances of the summary, for any answers at all. */
  lemma RunBalances(rows: seq<Row>, world: World)
    ensures var verdicts := AllVerdicts(Chunks(rows, MAX_BATCH), world.lookup);
            var eligible, b := EligibleOf(rows, world), BookingsOf(rows, world);
            var found, c := Tally(verdicts), CountAll(Chunks(eligible, MAX_BATCH), world);
            && |rows| == found.submitted == found.eligible + found.completed + found.stale + found.active + found.errors
            && |eligible| == found.eligible
            && |LookupIssues(rows, verdicts)| == found.errors
            && Total(c) == |eligible| + AllStrays(Chunks(eligible, MAX_BATCH), world)
            && c.scheduled + c.already == |b|
            && c.skipped + c.failed == |AllScheduleIssues(Chunks(eligible, MAX_BATCH), world)|
            && |MarksOf(rows, world)| + |AllUnconfirmed(Chunks(b, MAX_BATCH), world)| == |b|
            && c.submitted == |Fitting(eligible, world.itemFits)|
            && Submitted(Chunks(b, MAX_BATCH), world.activityFits) == |FittingBookings(b, world.activityFits)|
  {
    SubmittedMeans(Chunks(BookingsOf(rows, world), MAX_BATCH), world.activityFits);
    hide Submitted, Fitting, FittingBookings;
    hide AllVerdicts, Picked, AllBookings, AllConfirmed, Chunks, Flatten, Tally, CountAll, AllStrays, Total;
    ScheduleBalances(Chunks(EligibleOf(rows, world), MAX_BATCH), world);
    ActivityBalances(Chunks(BookingsOf(rows, world), MAX_BATCH), world);
  }
}
