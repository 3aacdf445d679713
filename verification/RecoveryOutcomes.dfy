/** What the records of a recovery run say in terms of the answers themselves: which rows may be
    called, what each reply comes to, and what is reported of the rest. */
module RecoveryOutcomes {
  import opened Sorting
  import opened RecoveryRows
  import opened RecoveryLedger
  import opened Wrappers

  // ---------------------------------------------------------------- lookup

  /** Batches of 500, the last one possibly shorter. */
  ghost predicate Batched(batches: seq<seq<Row>>) {
    && (forall k :: 0 <= k < |batches| ==> 0 < |batches[k]| <= 500)
    && (forall k :: 0 <= k < |batches| - 1 ==> |batches[k]| == 500)
  }

  lemma {:induction false} FullBatches(batches: seq<seq<Row>>)
    requires forall i :: 0 <= i < |batches| ==> |batches[i]| == 500
    ensures |Flatten(batches)| == |batches| * 500
  {
    if batches != [] {
      var n := |batches| - 1;
      assert batches == batches[..n] + [batches[n]];
      FlattenLast(batches[..n], batches[n]);
      FullBatches(batches[..n]);
    }
  }

  lemma LastBatch(batches: seq<seq<Row>>)
    requires Batched(batches) && batches != []
    ensures var n := |batches| - 1;
            && Batched(batches[..n]) && 0 < |batches[n]| <= 500
            && Flatten(batches) == Flatten(batches[..n]) + batches[n] && |Flatten(batches[..n])| == n * 500
  {
    EarlierBatches(batches);
    hide Batched, Flatten;
    FullBatches(batches[..|batches| - 1]);
    SplitOff(batches);
  }

  lemma EarlierBatches(batches: seq<seq<Row>>)
    requires Batched(batches) && batches != []
    ensures var before := batches[..|batches| - 1];
            Batched(before) && (forall k :: 0 <= k < |before| ==> |before[k]| == 500)
    ensures 0 < |batches[|batches| - 1]| <= 500
  {
  }

  lemma SplitOff(batches: seq<seq<Row>>)
    requires batches != []
    ensures Flatten(batches) == Flatten(batches[..|batches| - 1]) + batches[|batches| - 1]
  {
    var n := |batches| - 1;
    FlattenLast(batches[..n], batches[n]);
    hide Flatten;
    assert batches == batches[..n] + [batches[n]];
  }

  lemma {:induction false} VerdictInBatch(batches: seq<seq<Row>>, lookup: nat -> Answer<LookupResult>, k: nat, j: nat)
    requires Batched(batches) && k < |batches| && j < |batches[k]|
    ensures var i := k * 500 + j;
            && i < |Flatten(batches)| && Flatten(batches)[i] == batches[k][j]
            && AllVerdicts(batches, lookup)[i] == VerdictOf(batches[k][j], j, Replies(lookup(k)))
    decreases |batches|
  {
    var n := |batches| - 1;
    LastBatch(batches);
    hide VerdictOf, Flatten;
    if k < n {
      VerdictInBatch(batches[..n], lookup, k, j);
    }
  }

  lemma BatchesCover(batches: seq<seq<Row>>, i: nat)
    requires Batched(batches) && i < |Flatten(batches)|
    ensures i / 500 < |batches| && i % 500 < |batches[i / 500]|
  {
    LastBatch(batches);
    hide Flatten;
  }

  /** The answer to row `i` of all is in place `i % 500` of the answer to batch `i / 500`. */
  ghost predicate MayBeBooked(rows: seq<Row>, world: World, row: Row) {
    exists i: nat :: InPlace(rows, world, row, i)
  }

  ghost predicate InPlace(rows: seq<Row>, world: World, row: Row, i: nat) {
    i < |rows| && rows[i] == row && MayBeCalled(row, i % 500, Replies(world.lookup(i / 500)))
  }

  lemma ChunksAreBatches(rows: seq<Row>)
    ensures Batched(Chunks(rows, MAX_BATCH)) && Flatten(Chunks(rows, MAX_BATCH)) == rows
  {
    var batches := Chunks(rows, MAX_BATCH);
    assert forall k :: 0 <= k < |batches| ==> batches[k] in batches;
    hide Chunks, Flatten;
  }

  lemma VerdictInPlace(rows: seq<Row>, world: World, i: nat)
    requires i < |rows|
    ensures AllVerdicts(Chunks(rows, MAX_BATCH), world.lookup)[i].Eligible? <==>
            MayBeCalled(rows[i], i % 500, Replies(world.lookup(i / 500)))
  {
    hide Chunks, Flatten, AllVerdicts, VerdictOf, MayBeCalled, Batched;
    ChunksAreBatches(rows);
    var batches := Chunks(rows, MAX_BATCH);
    BatchesCover(batches, i);
    var k, j := i / 500, i % 500;
    VerdictInBatch(batches, world.lookup, k, j);
    VerdictMeans(batches[k][j], j, Replies(world.lookup(k)));
  }

  /** Exactly the rows that may be called go on to be scheduled. */
  lemma EligibleMeans(rows: seq<Row>, world: World, row: Row)
    ensures row in EligibleOf(rows, world) <==> MayBeBooked(rows, world, row)
  {
    var v := AllVerdicts(Chunks(rows, MAX_BATCH), world.lookup);
    forall i: nat | i < |rows|
      ensures v[i].Eligible? <==> MayBeCalled(rows[i], i % 500, Replies(world.lookup(i / 500)))
    {
      VerdictInPlace(rows, world, i);
    }
    hide MayBeCalled, AllVerdicts, Chunks, Picked, Flatten;
    PickedIff(rows, v, row, Issue(None, "", "", false));
    if i :| PickedAt(rows, v, row, i) {
      assert InPlace(rows, world, row, i);
    }
    if i: nat :| InPlace(rows, world, row, i) {
      assert PickedAt(rows, v, row, i);
    }
  }

  // ---------------------------------------------------------------- scheduling

  predicate Books(r: ScheduleReply) {
    (r.status == "scheduled" || r.status == "already_scheduled") && r.callId != ""
  }

  predicate IsScheduled(r: ScheduleReply) {
    r.status == "scheduled" && r.callId != ""
  }

  predicate IsAlready(r: ScheduleReply) {
    r.status == "already_scheduled" && r.callId != ""
  }

  predicate IsSkipped(r: ScheduleReply) {
    !Books(r) && |r.status| >= 7 && r.status[..7] == "skipped"
  }

  lemma OutcomeMeans(r: ScheduleReply)
    ensures var o := OutcomeOf(r);
            && (o.Scheduled? <==> IsScheduled(r)) && (o.AlreadyScheduled? <==> IsAlready(r))
            && (o.Skipped? <==> IsSkipped(r))
            && (o.Skipped? ==> o.reason == FirstOf(r.status))
            && (o.NotScheduled? ==> o.reason == if r.status == "" then "schedule_failed" else FirstOf(r.status))
  {
    assert "skipped" <= r.status <==> |r.status| >= 7 && r.status[..7] == "skipped";
  }

  /** At most 120 characters of a code are kept. */
  function FirstOf(code: string): string {
    if |code| <= 120 then code else code[..120]
  }

  /** The places of the replies that are the first for their row and pass a test. */
  ghost function FirstWhere(replies: seq<ScheduleReply>, n: nat, test: ScheduleReply -> bool): set<nat> {
    set k: nat | k < |replies| && FirstFor(replies, n, k) && test(replies[k])
  }

  lemma FirstWhereNext(replies: seq<ScheduleReply>, n: nat, test: ScheduleReply -> bool)
    requires replies != []
    ensures var last := |replies| - 1;
            var more := FirstFor(replies, n, last) && test(replies[last]);
            |FirstWhere(replies, n, test)| == |FirstWhere(replies[..last], n, test)| + (if more then 1 else 0)
  {
    var last := |replies| - 1;
    var before := FirstWhere(replies[..last], n, test);
    forall k: nat | k < last
      ensures FirstFor(replies[..last], n, k) <==> FirstFor(replies, n, k)
    {
      assert forall j :: 0 <= j <= k ==> replies[..last][j] == replies[j];
    }
    hide FirstFor;
    if FirstFor(replies, n, last) && test(replies[last]) {
      assert FirstWhere(replies, n, test) == before + {last};
    } else {
      assert FirstWhere(replies, n, test) == before;
    }
  }

  /** The counters count the first replies by what they say, and all the rest as failed. */
  lemma {:induction false} CountsMean(c: ScheduleCounts, replies: seq<ScheduleReply>, n: nat)
    ensures var d := CountReplies(c, replies, n);
            && d.scheduled == c.scheduled + |FirstWhere(replies, n, IsScheduled)|
            && d.already == c.already + |FirstWhere(replies, n, IsAlready)|
            && d.skipped == c.skipped + |FirstWhere(replies, n, IsSkipped)|
            && d.failed == c.failed + |replies| - (d.scheduled - c.scheduled) - (d.already - c.already)
                           - (d.skipped - c.skipped)
  {
    if replies == [] {
      assert forall test: ScheduleReply -> bool :: FirstWhere(replies, n, test) == {};
    } else {
      var last := |replies| - 1;
      CountsMean(c, replies[..last], n);
      FirstWhereNext(replies, n, IsScheduled);
      FirstWhereNext(replies, n, IsAlready);
      FirstWhereNext(replies, n, IsSkipped);
      TakesIffFirst(replies, n);
      OutcomeMeans(replies[last]);
      hide FirstWhere, FirstFor, Takes, OutcomeOf, IsScheduled, IsAlready, IsSkipped;
    }
  }

  /** The first reply for row `b.row` books it under its call id. */
  ghost predicate BookedBy(b: Booking, replies: seq<ScheduleReply>, prepared: seq<Row>, k: nat) {
    && k < |replies| && FirstFor(replies, |prepared|, k) && Books(replies[k])
    && b == Booking(prepared[replies[k].index.i], replies[k].callId, replies[k].status)
  }

  ghost predicate BooksAt(replies: seq<ScheduleReply>, n: nat, r: ScheduleReply, k: nat) {
    k < |replies| && FirstFor(replies, n, k) && Books(replies[k]) && replies[k] == r
  }

  lemma EarlierBooks(replies: seq<ScheduleReply>, n: nat, r: ScheduleReply)
    requires replies != []
    ensures var last := |replies| - 1;
            forall k: nat :: k < last ==> (BooksAt(replies[..last], n, r, k) <==> BooksAt(replies, n, r, k))
  {
    var last := |replies| - 1;
    forall k: nat | k < last
      ensures FirstFor(replies[..last], n, k) <==> FirstFor(replies, n, k)
      ensures replies[..last][k] == replies[k]
    {
      assert forall j :: 0 <= j <= k ==> replies[..last][j] == replies[j];
    }
    hide FirstFor;
  }

  lemma LastBooked(replies: seq<ScheduleReply>, n: nat, r: ScheduleReply)
    requires replies != []
    ensures var last := |replies| - 1;
            r in Booked(replies, n) <==> r in Booked(replies[..last], n) || BooksAt(replies, n, r, last)
  {
    TakesIffFirst(replies, n);
    OutcomeMeans(replies[|replies| - 1]);
    hide FirstFor, Takes, Handled, OutcomeOf;
  }

  lemma {:induction false} BookedMeans(replies: seq<ScheduleReply>, n: nat, r: ScheduleReply)
    ensures r in Booked(replies, n) <==> exists k: nat :: BooksAt(replies, n, r, k)
  {
    hide FirstFor, Handled, DistinctBy, Books;
    if replies == [] {
      assert Booked(replies, n) == [];
    } else {
      var last := |replies| - 1;
      hide Booked;
      BookedMeans(replies[..last], n, r);
      EarlierBooks(replies, n, r);
      LastBooked(replies, n, r);
      hide BooksAt;
      if k: nat :| BooksAt(replies, n, r, k) {
        assert k < last ==> BooksAt(replies[..last], n, r, k);
      }
    }
  }

  /** A batch books exactly the rows whose first reply says so and names a call. */
  lemma BatchBooks(replies: seq<ScheduleReply>, prepared: seq<Row>, b: Booking)
    ensures b in Bookings(Booked(replies, |prepared|), prepared) <==> exists k: nat :: BookedBy(b, replies, prepared, k)
  {
    var booked := Booked(replies, |prepared|);
    var bookings := Bookings(booked, prepared);
    if b in bookings {
      var i :| 0 <= i < |bookings| && bookings[i] == b;
      BookedMeans(replies, |prepared|, booked[i]);
      var k: nat :| BooksAt(replies, |prepared|, booked[i], k);
      assert BookedBy(b, replies, prepared, k);
    }
    if k: nat :| BookedBy(b, replies, prepared, k) {
      assert BooksAt(replies, |prepared|, replies[k], k);
      BookedMeans(replies, |prepared|, replies[k]);
      var i :| 0 <= i < |booked| && booked[i] == replies[k];
      assert bookings[i] == b;
    }
  }

  /** Why a reply is reported. */
  ghost predicate ReportsReply(issue: Issue, replies: seq<ScheduleReply>, ids: seq<string>, k: nat) {
    && k < |replies| && issue.stage == "schedule" && !issue.retryable
    && if FirstFor(replies, |ids|, k)
       then !Books(replies[k]) && issue.externalId == Some(ids[replies[k].index.i])
            && issue.code == if replies[k].status == "" then "schedule_failed" else FirstOf(replies[k].status)
       else issue.externalId == None && issue.code == "invalid_result_index"
  }

  lemma {:induction false} ReplyIssuesMean(replies: seq<ScheduleReply>, ids: seq<string>, issue: Issue)
    ensures issue in ReplyIssues(replies, ids) <==> exists k: nat :: ReportsReply(issue, replies, ids, k)
  {
    if replies != [] {
      var last := |replies| - 1;
      ReplyIssuesMean(replies[..last], ids, issue);
      TakesIffFirst(replies, |ids|);
      OutcomeMeans(replies[last]);
      EarlierReports(issue, replies, ids);
      hide Takes, Handled, OutcomeOf, FirstFor;
      LastReported(replies, ids, issue);
      hide ReplyIssues;
      if k: nat :| ReportsReply(issue, replies, ids, k) {
        assert k < last ==> ReportsReply(issue, replies[..last], ids, k);
      }
    }
  }

  lemma EarlierReports(issue: Issue, replies: seq<ScheduleReply>, ids: seq<string>)
    requires replies != []
    ensures var last := |replies| - 1;
            forall k: nat :: k < last ==>
              (ReportsReply(issue, replies[..last], ids, k) <==> ReportsReply(issue, replies, ids, k))
  {
    var last := |replies| - 1;
    forall k: nat | k < last
      ensures FirstFor(replies[..last], |ids|, k) <==> FirstFor(replies, |ids|, k)
      ensures replies[..last][k] == replies[k]
    {
      assert forall j :: 0 <= j <= k ==> replies[..last][j] == replies[j];
    }
    hide FirstFor;
  }

  lemma LastReported(replies: seq<ScheduleReply>, ids: seq<string>, issue: Issue)
    requires replies != []
    ensures var last := |replies| - 1;
            issue in ReplyIssues(replies, ids) <==>
            issue in ReplyIssues(replies[..last], ids) || ReportsReply(issue, replies, ids, last)
  {
    var last := |replies| - 1;
    TakesIffFirst(replies, |ids|);
    OutcomeMeans(replies[last]);
    hide OutcomeOf, Handled;
  }

  lemma {:induction false} MissingMeans(ids: seq<string>, answered: set<int>, issue: Issue)
    ensures issue in MissingIssues(ids, answered) <==>
            exists i :: 0 <= i < |ids| && i !in answered
                        && issue == Issue(Some(ids[i]), "schedule", "missing_result", true)
  {
    if ids != [] {
      var n := |ids| - 1;
      MissingMeans(ids[..n], answered, issue);
      assert forall i :: 0 <= i < n ==> ids[..n][i] == ids[i];
    }
  }

  lemma {:induction false} FittingMeans(batch: seq<Row>, fits: Row -> Option<string>, row: Row, issue: Issue)
    ensures row in Fitting(batch, fits) <==> row in batch && fits(row) == None
    ensures issue in TooLarge(batch, fits) <==>
            exists r :: r in batch && fits(r).Some?
                        && issue == Issue(Some(r.externalId), "schedule", fits(r).value, false)
  {
    if batch != [] {
      var n := |batch| - 1;
      FittingMeans(batch[..n], fits, row, issue);
      assert batch == batch[..n] + [batch[n]];
    }
  }

  // ---------------------------------------------------------------- activity

  /** The last reply that names row `i` says it went well; where none does, the reply in its
      place that names no row at all says so. */
  ghost predicate WentWell(replies: seq<ActivityReply>, i: nat) {
    || (exists k :: LastNaming(replies, i, k) && replies[k].ok)
    || ((forall k :: !LastNaming(replies, i, k)) && i < |replies| && replies[i].index.Absent? && replies[i].ok)
  }

  lemma SucceedsMeans(replies: seq<ActivityReply>, i: nat)
    ensures Succeeds(replies, i) <==> WentWell(replies, i)
  {
    var r := ReplyFor(replies, i);
    if k :| LastNaming(replies, i, k) {
      assert r == Some(replies[k]);
      assert forall j :: LastNaming(replies, i, j) ==> r == Some(replies[j]);
    }
    hide LastNaming, ReplyFor;
  }

  lemma {:induction false} ConfirmedMeans(prepared: seq<Booking>, replies: seq<ActivityReply>, b: Booking)
    ensures b in Confirmed(prepared, replies) <==>
            exists i :: 0 <= i < |prepared| && prepared[i] == b && WentWell(replies, i)
  {
    if prepared != [] {
      var n := |prepared| - 1;
      ConfirmedMeans(prepared[..n], replies, b);
      SucceedsMeans(replies, n);
      hide WentWell, Succeeds;
      assert forall i :: 0 <= i < n ==> prepared[..n][i] == prepared[i];
    }
  }

  /** What is reported of a booking that did not go well. */
  ghost predicate ReportsBooking(issue: Issue, b: Booking, replies: seq<ActivityReply>, i: nat) {
    && !WentWell(replies, i)
    && issue.externalId == Some(b.row.externalId) && issue.stage == "activity_upsert" && issue.retryable
    && (forall k :: LastNaming(replies, i, k) ==>
          issue.code == if replies[k].code == "" then "bulk_upsert_failed" else FirstOf(replies[k].code))
    && ((forall k :: !LastNaming(replies, i, k)) ==>
          issue.code == if i >= |replies| || !replies[i].index.Absent? then "missing_result"
                        else if replies[i].code == "" then "bulk_upsert_failed" else FirstOf(replies[i].code))
  }

  lemma FailureMeans(b: Booking, replies: seq<ActivityReply>, i: nat)
    ensures !Succeeds(replies, i) ==>
              var issue := Issue(Some(b.row.externalId), "activity_upsert", FailureCode(replies, i), true);
              ReportsBooking(issue, b, replies, i)
  {
    SucceedsMeans(replies, i);
    hide WentWell, Succeeds, LastNaming, ReplyFor;
  }

  lemma {:induction false} UnconfirmedMeans(prepared: seq<Booking>, replies: seq<ActivityReply>, issue: Issue)
    requires issue in Unconfirmed(prepared, replies)
    ensures exists i :: 0 <= i < |prepared| && ReportsBooking(issue, prepared[i], replies, i)
  {
    var n := |prepared| - 1;
    FailureMeans(prepared[n], replies, n);
    hide ReportsBooking, FailureCode, Succeeds;
    if issue in Unconfirmed(prepared[..n], replies) {
      UnconfirmedMeans(prepared[..n], replies, issue);
      var i :| 0 <= i < n && ReportsBooking(issue, prepared[..n][i], replies, i);
      assert prepared[i] == prepared[..n][i];
    }
  }

  lemma {:induction false} FittingBookingsMean(batch: seq<Booking>, fits: Row -> Option<string>, b: Booking,
                                               issue: Issue)
    ensures b in FittingBookings(batch, fits) <==> b in batch && fits(b.row) == None
    ensures issue in TooLargeBookings(batch, fits) <==>
            exists c :: c in batch && fits(c.row).Some?
                        && issue == Issue(Some(c.row.externalId), "activity_upsert", fits(c.row).value, false)
  {
    if batch != [] {
      var n := |batch| - 1;
      FittingBookingsMean(batch[..n], fits, b, issue);
      assert batch == batch[..n] + [batch[n]];
    }
  }

  // ---------------------------------------------------------------- the bookings of a run

  /** The booking has a call id and one of the two statuses, and its row passed the size
      check. */
  ghost predicate BookingSound(b: Booking, world: World) {
    (b.status == "scheduled" || b.status == "already_scheduled") && b.callId != "" && world.itemFits(b.row) == None
  }

  lemma {:induction false} BookingsMean(batches: seq<seq<Row>>, world: World)
    ensures forall b :: b in AllBookings(batches, world) ==> BookingSound(b, world)
  {
    if batches != [] {
      var n := |batches| - 1;
      BookingsMean(batches[..n], world);
      var replies, fits := Replies(world.schedule(n)), world.itemFits;
      var prepared := Fitting(batches[n], fits);
      forall b | b in BatchBookings(batches[n], replies, fits)
        ensures BookingSound(b, world)
      {
        BatchBooks(replies, prepared, b);
        var k: nat :| BookedBy(b, replies, prepared, k);
        FittingMeans(batches[n], fits, b.row, Issue(None, "", "", false));
      }
      hide BatchBookings;
    }
  }
}
