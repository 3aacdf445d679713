/** The checkout-recovery run itself: it works batch by batch and keeps one summary. */
module RecoveryRun {
  import opened Sorting
  import opened RecoveryRows
  import opened RecoveryLedger
  import opened RecoveryOutcomes
  import opened Wrappers

  class Run {
    var source: SourceCounts
    var lookup: LookupCounts
    var schedule: ScheduleCounts
    var activity: ActivityCounts
    var errors: seq<Issue>
    var bookings: seq<Booking>
    /** The checkouts this run asked to be marked as scheduled, by their id and external id. */
    var marks: seq<Booking>
    var status: Status

    constructor ()
      ensures source == SourceCounts(0, 0, 0, 0) && lookup == LookupCounts(0, 0, 0, 0, 0, 0)
      ensures schedule == ScheduleCounts(0, 0, 0, 0, 0) && activity == ActivityCounts(0, 0, 0)
      ensures errors == [] && bookings == [] && marks == [] && status == Running
    {
      source, lookup := SourceCounts(0, 0, 0, 0), LookupCounts(0, 0, 0, 0, 0, 0);
      schedule, activity := ScheduleCounts(0, 0, 0, 0, 0), ActivityCounts(0, 0, 0);
      errors, bookings, marks, status := [], [], [], Running;
    }

    /** A service that fails as a whole ends the run. */
    method Fail(code: string, retryable: bool)
      modifies `errors, `status
      ensures status == Failed && errors == old(errors) + [Issue(None, "samora", code, retryable)]
    {
      errors := errors + [Issue(None, "samora", code, retryable)];
      status := Failed;
    }

    /** Looking up in batches says the same as looking up all rows at once. */
    method LookupAll(rows: seq<Row>, world: World) returns (ok: bool, eligible: seq<Row>)
      requires lookup == LookupCounts(0, 0, 0, 0, 0, 0)
      modifies `lookup, `errors, `status
      ensures var batches := Chunks(rows, MAX_BATCH);
              && (ok <==> forall k :: 0 <= k < |batches| ==> world.lookup(k).Answered?)
              && (!ok ==> status == Failed)
              && (ok ==>
                    var verdicts := AllVerdicts(batches, world.lookup);
                    && status == old(status)
                    && eligible == Picked(rows, verdicts)
                    && lookup == Tally(verdicts)
                    && errors == old(errors) + LookupIssues(rows, verdicts))
    {
      hide Chunks, AllVerdicts, Picked, Tally, LookupIssues, Verdicts, Flatten, SaysWho, SaysHowMany, SaysWhy;
      var batches := Chunks(rows, MAX_BATCH);
      eligible := [];
      ghost var before := errors;
      NothingLookedUp(world.lookup);
      assert batches[..0] == [];
      for k := 0 to |batches|
        invariant status == old(status)
        invariant forall j :: 0 <= j < k ==> world.lookup(j).Answered?
        invariant eligible == Picked(Flatten(batches[..k]), AllVerdicts(batches[..k], world.lookup))
        invariant lookup == Tally(AllVerdicts(batches[..k], world.lookup))
        invariant errors == before + LookupIssues(Flatten(batches[..k]), AllVerdicts(batches[..k], world.lookup))
      {
        var response := world.lookup(k);
        if response.Broken? {
          Fail(response.code, response.retryable);
          return false, [];
        }
        var picked, counts, issues := LookupEligible(batches[k], response.replies);
        LookedUpNext(batches, world.lookup, k);
        eligible := eligible + picked;
        lookup := Plus(lookup, counts);
        errors := errors + issues;
      }
      assert batches[..|batches|] == batches;
      ok := true;
    }

    // -------------------------------------------------------------- scheduling

    method PrepareItems(batch: seq<Row>, world: World) returns (prepared: seq<Row>)
      modifies `schedule, `errors
      ensures prepared == Fitting(batch, world.itemFits)
      ensures schedule == old(schedule).(skipped := old(schedule).skipped + |batch| - |prepared|)
      ensures errors == old(errors) + TooLarge(batch, world.itemFits)
    {
      prepared := [];
      assert batch[..0] == [];
      for i := 0 to |batch|
        invariant prepared == Fitting(batch[..i], world.itemFits)
        invariant schedule == old(schedule).(skipped := old(schedule).skipped + i - |prepared|)
        invariant errors == old(errors) + TooLarge(batch[..i], world.itemFits)
      {
        var row := batch[i];
        assert batch[..i + 1][..i] == batch[..i];
        var fault := world.itemFits(row);
        if fault.Some? {
          schedule := schedule.(skipped := schedule.skipped + 1);
          errors := errors + [Issue(Some(row.externalId), "schedule", fault.value, false)];
        } else {
          prepared := prepared + [row];
        }
      }
      assert batch[..|batch|] == batch;
    }

    /** Takes every reply in turn; a row is settled by the first reply with its index. */
    method TakeReplies(prepared: seq<Row>, replies: seq<ScheduleReply>) returns (handled: set<int>)
      modifies `schedule, `errors, `bookings
      ensures handled == IndexSet(Handled(replies, |prepared|))
      ensures schedule == CountReplies(old(schedule), replies, |prepared|)
      ensures errors == old(errors) + ReplyIssues(replies, Ids(prepared))
      ensures bookings == old(bookings) + Bookings(Booked(replies, |prepared|), prepared)
    {
      hide Handled, CountReplies, ReplyIssues, Booked, Takes, Clip, Bookings, IndexSet, Ids;
      ghost var n, ids := |prepared|, Ids(prepared);
      handled := {};
      NoReplies(schedule, prepared);
      assert replies[..0] == [];
      for i := 0 to |replies|
        invariant handled == IndexSet(Handled(replies[..i], n))
        invariant schedule == CountReplies(old(schedule), replies[..i], n)
        invariant errors == old(errors) + ReplyIssues(replies[..i], ids)
        invariant bookings == old(bookings) + Bookings(Booked(replies[..i], n), prepared)
      {
        var reply := replies[i];
        ReplyNext(old(schedule), replies, i, prepared);
        TakesByIndex(Handled(replies[..i], n), reply, n);
        if !reply.index.At? || reply.index.i < 0 || reply.index.i >= |prepared| || reply.index.i in handled {
          schedule := schedule.(failed := schedule.failed + 1);
          errors := errors + [Issue(None, "schedule", "invalid_result_index", false)];
          continue;
        }
        handled := handled + {reply.index.i};
        var row := prepared[reply.index.i];
        IdAt(prepared, reply.index.i);
        if (reply.status == "scheduled" || reply.status == "already_scheduled") && reply.callId != "" {
          if reply.status == "scheduled" {
            schedule := schedule.(scheduled := schedule.scheduled + 1);
          } else {
            schedule := schedule.(already := schedule.already + 1);
          }
          bookings := bookings + [Booking(row, reply.callId, reply.status)];
        } else if "skipped" <= reply.status {
          schedule := schedule.(skipped := schedule.skipped + 1);
          errors := errors + [Issue(Some(row.externalId), "schedule", Clip(reply.status, ""), false)];
        } else {
          schedule := schedule.(failed := schedule.failed + 1);
          errors := errors + [Issue(Some(row.externalId), "schedule", Clip(reply.status, "schedule_failed"), false)];
        }
      }
      assert replies[..|replies|] == replies;
    }

    method NoteMissing(prepared: seq<Row>, handled: set<int>)
      modifies `schedule, `errors
      ensures var missing := MissingIssues(Ids(prepared), handled);
              && errors == old(errors) + missing
              && schedule == old(schedule).(failed := old(schedule).failed + |missing|)
    {
      ghost var ids := Ids(prepared);
      assert ids[..0] == [];
      for i := 0 to |prepared|
        invariant errors == old(errors) + MissingIssues(ids[..i], handled)
        invariant schedule == old(schedule).(failed := old(schedule).failed + |MissingIssues(ids[..i], handled)|)
      {
        assert ids[..i + 1][..i] == ids[..i];
        if i !in handled {
          schedule := schedule.(failed := schedule.failed + 1);
          errors := errors + [Issue(Some(prepared[i].externalId), "schedule", "missing_result", true)];
        }
      }
      assert ids[..|ids|] == ids;
    }

    method ScheduleBatch(batch: seq<Row>, world: World, k: nat) returns (ok: bool)
      modifies `schedule, `errors, `bookings, `status
      ensures ok <==> (Fitting(batch, world.itemFits) != [] ==> world.schedule(k).Answered?)
      ensures !ok ==> status == Failed && bookings == old(bookings)
      ensures ok ==>
                var replies, fits := Replies(world.schedule(k)), world.itemFits;
                && status == old(status)
                && schedule == CountBatch(old(schedule), batch, replies, fits)
                && errors == old(errors) + BatchIssues(batch, replies, fits)
                && bookings == old(bookings) + BatchBookings(batch, replies, fits)
    {
      hide Fitting, TooLarge, CountReplies, ReplyIssues, Booked, Handled, MissingIssues, Bookings, Ids, IndexSet, Total;
      var prepared := PrepareItems(batch, world);
      if prepared == [] {
        return true;
      }
      schedule := schedule.(submitted := schedule.submitted + |prepared|);
      var response := world.schedule(k);
      if response.Broken? {
        Fail(response.code, response.retryable);
        return false;
      }
      var handled := TakeReplies(prepared, response.replies);
      HandledFits(response.replies, |prepared|);
      HandledIndexes(Handled(response.replies, |prepared|));
      HandledBelow(response.replies, |prepared|);
      MissingComplement(Ids(prepared), handled);
      NoteMissing(prepared, handled);
      ok := true;
    }

    /** Books the eligible rows; every answered run has counted every row and stray reply. */
    method ScheduleAll(eligible: seq<Row>, world: World) returns (ok: bool)
      requires schedule == ScheduleCounts(0, 0, 0, 0, 0) && bookings == []
      requires DistinctBy(eligible, (r: Row) => r.phone)
      modifies `schedule, `errors, `bookings, `status
      ensures var batches := Chunks(eligible, MAX_BATCH);
              && (ok <==> AllAnswered(batches, world))
              && (!ok ==> status == Failed)
              && DistinctBy(bookings, (b: Booking) => b.row.phone)
              && (forall b :: b in bookings ==> b.row in eligible && BookingSound(b, world))
              && (ok ==>
                    && status == old(status)
                    && schedule == CountAll(batches, world)
                    && bookings == AllBookings(batches, world)
                    && errors == old(errors) + AllScheduleIssues(batches, world))
    {
      hide Chunks, CountBatch, BatchIssues, BatchBookings, Fitting, CountAll, AllBookings, AllScheduleIssues, Flatten,
          Total, DistinctBy, BookingSound;
      var batches := Chunks(eligible, MAX_BATCH);
      NothingScheduled(world);
      assert batches[..0] == [];
      for k := 0 to |batches|
        invariant status == old(status) && AllAnswered(batches[..k], world)
        invariant schedule == CountAll(batches[..k], world)
        invariant bookings == AllBookings(batches[..k], world)
        invariant errors == old(errors) + AllScheduleIssues(batches[..k], world)
      {
        ScheduleNext(batches, world, k);
        var answered := ScheduleBatch(batches[k], world, k);
        if !answered {
          assert BookedUpTo(bookings, batches, world, k);
          BookingsMean(batches[..k], world);
          SoFarBooksOnce(bookings, batches, world);
          return false;
        }
      }
      assert batches[..|batches|] == batches;
      assert BookedUpTo(bookings, batches, world, |batches|);
      BookingsMean(batches, world);
      SoFarBooksOnce(bookings, batches, world);
      ok := true;
    }

    // -------------------------------------------------------------- activity

    method PrepareActivity(batch: seq<Booking>, world: World) returns (prepared: seq<Booking>)
      modifies `activity, `errors
      ensures prepared == FittingBookings(batch, world.activityFits)
      ensures activity == old(activity).(failed := old(activity).failed + |batch| - |prepared|)
      ensures errors == old(errors) + TooLargeBookings(batch, world.activityFits)
    {
      prepared := [];
      assert batch[..0] == [];
      for i := 0 to |batch|
        invariant prepared == FittingBookings(batch[..i], world.activityFits)
        invariant activity == old(activity).(failed := old(activity).failed + i - |prepared|)
        invariant errors == old(errors) + TooLargeBookings(batch[..i], world.activityFits)
      {
        var entry := batch[i];
        assert batch[..i + 1][..i] == batch[..i];
        var fault := world.activityFits(entry.row);
        if fault.Some? {
          activity := activity.(failed := activity.failed + 1);
          errors := errors + [Issue(Some(entry.row.externalId), "activity_upsert", fault.value, false)];
        } else {
          prepared := prepared + [entry];
        }
      }
      assert batch[..|batch|] == batch;
    }

    method IndexReplies(replies: seq<ActivityReply>) returns (indexed: map<int, ActivityReply>)
      ensures forall i: nat :: (i in indexed <==> Named(replies, i).Some?)
                               && (i in indexed ==> Named(replies, i) == Some(indexed[i]))
    {
      hide Named;
      indexed := map[];
      assert replies[..0] == [];
      NothingNamed();
      for j := 0 to |replies|
        invariant forall i: nat :: (i in indexed <==> Named(replies[..j], i).Some?)
                                   && (i in indexed ==> Named(replies[..j], i) == Some(indexed[i]))
      {
        NamedNext(replies, j);
        if replies[j].index.At? {
          indexed := indexed[replies[j].index.i := replies[j]];
        }
      }
      assert replies[..|replies|] == replies;
    }

    method ActivityBatch(batch: seq<Booking>, world: World, k: nat) returns (ok: bool)
      modifies `activity, `errors, `marks, `status
      ensures ok <==> (FittingBookings(batch, world.activityFits) != [] ==> world.activity(k).Answered?)
      ensures !ok ==> status == Failed && marks == old(marks)
      ensures ok ==>
                var replies, fits := Replies(world.activity(k)), world.activityFits;
                var confirmed := BatchConfirmed(batch, replies, fits);
                && status == old(status)
                && activity == ActivityCounts(old(activity).submitted + |FittingBookings(batch, fits)|,
                                              old(activity).succeeded + |confirmed|,
                                              old(activity).failed + |BatchUnconfirmed(batch, replies, fits)|)
                && errors == old(errors) + BatchUnconfirmed(batch, replies, fits)
                && marks == old(marks) + confirmed
    {
      hide FittingBookings, TooLargeBookings, Confirmed, Unconfirmed, Named, Clip;
      var prepared := PrepareActivity(batch, world);
      if prepared == [] {
        NothingConfirmed(Replies(world.activity(k)));
        return true;
      }
      activity := activity.(submitted := activity.submitted + |prepared|);
      var response := world.activity(k);
      if response.Broken? {
        Fail(response.code, response.retryable);
        return false;
      }
      var replies := response.replies;
      var indexed := IndexReplies(replies);
      RecordActivity(prepared, replies, indexed);
      ok := true;
    }

    method RecordActivity(prepared: seq<Booking>, replies: seq<ActivityReply>, indexed: map<int, ActivityReply>)
      requires forall i: nat :: (i in indexed <==> Named(replies, i).Some?)
                                && (i in indexed ==> Named(replies, i) == Some(indexed[i]))
      modifies `activity, `errors, `marks
      ensures marks == old(marks) + Confirmed(prepared, replies)
      ensures errors == old(errors) + Unconfirmed(prepared, replies)
      ensures activity == ActivityCounts(old(activity).submitted,
                                         old(activity).succeeded + |Confirmed(prepared, replies)|,
                                         old(activity).failed + |Unconfirmed(prepared, replies)|)
    {
      hide Confirmed, Unconfirmed, Named, Clip;
      NothingConfirmed(replies);
      assert prepared[..0] == [];
      for i := 0 to |prepared|
        invariant marks == old(marks) + Confirmed(prepared[..i], replies)
        invariant errors == old(errors) + Unconfirmed(prepared[..i], replies)
        invariant activity == ActivityCounts(old(activity).submitted,
                                             old(activity).succeeded + |Confirmed(prepared[..i], replies)|,
                                             old(activity).failed + |Unconfirmed(prepared[..i], replies)|)
      {
        var entry := prepared[i];
        ConfirmedNext(prepared, replies, i);
        var result: Option<ActivityReply> := if i in indexed then Some(indexed[i]) else None;
        if result == None && i < |replies| && replies[i].index.Absent? {
          result := Some(replies[i]);
        }
        assert result == ReplyFor(replies, i);
        if result == None {
          result := Some(ActivityReply(Absent, false, "missing_result"));
        }
        if result.value.ok {
          activity := activity.(succeeded := activity.succeeded + 1);
          marks := marks + [entry];
        } else {
          activity := activity.(failed := activity.failed + 1);
          errors := errors
            + [Issue(Some(entry.row.externalId), "activity_upsert", Clip(result.value.code, "bulk_upsert_failed"),
                true)];
        }
      }
      assert prepared[..|prepared|] == prepared;
    }

    method ActivityAll(world: World) returns (ok: bool)
      requires activity == ActivityCounts(0, 0, 0) && marks == []
      requires DistinctBy(bookings, (b: Booking) => b.row.phone)
      modifies `activity, `errors, `marks, `status
      ensures var batches := Chunks(bookings, MAX_BATCH);
              && (ok <==> ActivityAnswered(batches, world))
              && (!ok ==> status == Failed)
              && DistinctBy(marks, (b: Booking) => b.row.phone)
              && (forall b :: b in marks ==> b in bookings)
              && (ok ==>
                    && status == old(status)
                    && marks == AllConfirmed(batches, world)
                    && activity == ActivityCounts(Submitted(batches, world.activityFits), |marks|,
                                                  |AllUnconfirmed(batches, world)|)
                    && errors == old(errors) + AllUnconfirmed(batches, world))
    {
      hide Chunks, BatchConfirmed, BatchUnconfirmed, FittingBookings, AllConfirmed, AllUnconfirmed, Submitted,
          Flatten, DistinctBy;
      var batches := Chunks(bookings, MAX_BATCH);
      NoActivity(world);
      assert batches[..0] == [];
      for k := 0 to |batches|
        invariant status == old(status) && ActivityAnswered(batches[..k], world)
        invariant marks == AllConfirmed(batches[..k], world)
        invariant activity.submitted == Submitted(batches[..k], world.activityFits)
        invariant activity.succeeded == |marks|
        invariant activity.failed == |AllUnconfirmed(batches[..k], world)|
        invariant errors == old(errors) + AllUnconfirmed(batches[..k], world)
      {
        ActivityNext(batches, world, k);
        var answered := ActivityBatch(batches[k], world, k);
        if !answered {
          assert MarkedUpTo(marks, batches, world, k);
          SoFarConfirmsOnce(marks, batches, world);
          return false;
        }
      }
      assert batches[..|batches|] == batches;
      assert MarkedUpTo(marks, batches, world, |batches|);
      SoFarConfirmsOnce(marks, batches, world);
      ok := true;
    }

    // -------------------------------------------------------------- the run

    /** `rows` are the deduplicated rows of a run that got as far as reading them. A run
        finishes exactly when its window is open and, if there is anything to do, the key is
        there and every service answers; a finished run's summary adds up. */
    method Execute(raws: seq<Raw>, text: Text, world: World, windowOpen: bool, keyPresent: bool)
      returns (ghost rows: seq<Row>)
      requires source == SourceCounts(0, 0, 0, 0) && lookup == LookupCounts(0, 0, 0, 0, 0, 0)
      requires schedule == ScheduleCounts(0, 0, 0, 0, 0) && activity == ActivityCounts(0, 0, 0)
      requires errors == [] && bookings == [] && marks == [] && status == Running
      modifies this
      ensures status == OutsideWindow <==> !windowOpen
      ensures windowOpen ==>
                && Deduplicates(rows, RecoveryRows.Valid(raws, text))
                && (status == Failed <==> rows != [] && (!keyPresent || !ServicesAnswer(rows, world)))
      ensures Finished() ==>
                && source == SourceCounts(|raws|, |RecoveryRows.Valid(raws, text)|, |Invalid(raws, text)|, |rows|)
                && source.valid + source.invalid == source.fetched
                && Balanced(rows, world)
      ensures Finished() ==> bookings == BookingsOf(rows, world) && marks == MarksOf(rows, world)
      ensures DistinctBy(bookings, (b: Booking) => b.row.phone) && DistinctBy(marks, (b: Booking) => b.row.phone)
      ensures forall b :: b in bookings ==>
                MayBeBooked(rows, world, b.row) && BookingSound(b, world) && Sourced(b.row, raws, text)
      ensures forall b :: b in marks ==> b in bookings
    {
      hide Deduplicates, RecoveryRows.Valid, Invalid, EligibleOf, BookingsOf, MarksOf, Balanced, DistinctBy;
      hide Chunks, AllAnswered, ActivityAnswered, AllVerdicts, MayBeBooked, BookingSound, Sourced, Explained;
      rows := [];
      NoneTwice();
      if !windowOpen {
        status := OutsideWindow;
        return;
      }
      var deduped, sourceErrors, validCount := ValidateAndDedupe(raws, text);
      rows := deduped;
      source := SourceCounts(|raws|, validCount, |sourceErrors|, |deduped|);
      errors := errors + sourceErrors;
      OnePerPhone(rows, RecoveryRows.Valid(raws, text));
      if deduped == [] {
        status := if sourceErrors != [] then CompletedWithErrors else Completed;
        NothingToDo(world);
        BalancedWhen(rows, world);
        return;
      }
      if !keyPresent {
        status := Failed;
        return;
      }
      Work(deduped, world);
      forall b | b in bookings
        ensures MayBeBooked(rows, world, b.row) && b.row in rows
      {
        EligibleMeans(rows, world, b.row);
        assert b.row in EligibleOf(rows, world);
      }
    }

    ghost predicate Finished()
      reads this
    {
      status == Completed || status == CompletedWithErrors
    }

    /** The summary of a finished run: each stage accounts for everything the stage before
        passed on, stray replies included, and each failure is listed once. */
    ghost predicate Balanced(rows: seq<Row>, world: World)
      reads this
    {
      && lookup.submitted == source.deduplicated ==
         lookup.eligible + lookup.completed + lookup.stale + lookup.active + lookup.errors
      && schedule.scheduled + schedule.already + schedule.skipped + schedule.failed ==
         lookup.eligible + AllStrays(Chunks(EligibleOf(rows, world), MAX_BATCH), world)
      && activity.succeeded + activity.failed == |bookings| == schedule.scheduled + schedule.already
      && activity.succeeded == |marks|
      && |errors| == source.invalid + lookup.errors + schedule.skipped + schedule.failed + activity.failed
      && (status == Completed <==> errors == [])
      && schedule.submitted == |Fitting(EligibleOf(rows, world), world.itemFits)|
      && activity.submitted == |FittingBookings(bookings, world.activityFits)|
    }

    method Work(rows: seq<Row>, world: World)
      requires lookup == LookupCounts(0, 0, 0, 0, 0, 0) && activity == ActivityCounts(0, 0, 0)
      requires schedule == ScheduleCounts(0, 0, 0, 0, 0)
      requires bookings == [] && marks == [] && status == Running
      requires |errors| == source.invalid && |rows| == source.deduplicated
      requires DistinctBy(rows, (r: Row) => r.phone)
      modifies `lookup, `schedule, `activity, `errors, `bookings, `marks, `status
      ensures status == Failed || Finished()
      ensures Finished() <==> ServicesAnswer(rows, world)
      ensures DistinctBy(bookings, (b: Booking) => b.row.phone) && DistinctBy(marks, (b: Booking) => b.row.phone)
      ensures forall b :: b in bookings ==> b.row in EligibleOf(rows, world) && BookingSound(b, world)
      ensures forall b :: b in marks ==> b in bookings
      ensures Finished() ==>
                Balanced(rows, world) && bookings == BookingsOf(rows, world) && marks == MarksOf(rows, world)
    {
      hide Chunks, AllVerdicts, Picked, Tally, LookupIssues, CountAll, AllBookings, AllScheduleIssues, AllStrays;
      hide AllAnswered, ActivityAnswered, AllConfirmed, AllUnconfirmed, Submitted;
      hide DistinctBy, Balanced, Total, BookingSound;
      NoneTwice();
      EligibleOnce(rows, world);
      var looked, eligible := LookupAll(rows, world);
      if !looked {
        return;
      }
      var scheduled := ScheduleAll(eligible, world);
      if !scheduled {
        return;
      }
      var recorded := ActivityAll(world);
      if !recorded {
        return;
      }
      status := if errors != [] then CompletedWithErrors else Completed;
      SummaryBalances(rows, world);
    }

    /** A summary that follows the records of all stages adds up. */
    lemma SummaryBalances(rows: seq<Row>, world: World)
      requires var verdicts := AllVerdicts(Chunks(rows, MAX_BATCH), world.lookup);
               var batches := Chunks(EligibleOf(rows, world), MAX_BATCH);
               var entries := Chunks(BookingsOf(rows, world), MAX_BATCH);
               && |rows| == source.deduplicated && lookup == Tally(verdicts) && schedule == CountAll(batches, world)
               && bookings == BookingsOf(rows, world) && marks == MarksOf(rows, world)
               && activity == ActivityCounts(Submitted(entries, world.activityFits), |marks|,
                                             |AllUnconfirmed(entries, world)|)
               && |errors| == source.invalid + |LookupIssues(rows, verdicts)| + |AllScheduleIssues(batches, world)|
                              + |AllUnconfirmed(entries, world)|
      requires status == if errors != [] then CompletedWithErrors else Completed
      ensures Balanced(rows, world)
    {
      hide Chunks, AllVerdicts, Picked, Tally, LookupIssues, CountAll, AllBookings, AllScheduleIssues, AllStrays;
      hide AllConfirmed, AllUnconfirmed;
      RunBalances(rows, world);
    }

    lemma BalancedWhen(rows: seq<Row>, world: World)
      requires rows == [] && source.deduplicated == 0 && lookup == LookupCounts(0, 0, 0, 0, 0, 0)
      requires schedule == ScheduleCounts(0, 0, 0, 0, 0) && activity == ActivityCounts(0, 0, 0)
      requires bookings == [] && marks == [] && |errors| == source.invalid
      requires status == if errors != [] then CompletedWithErrors else Completed
      ensures Balanced(rows, world)
    {
    }
  }

  lemma NoneTwice()
    ensures DistinctBy([], (b: Booking) => b.row.phone)
  {
  }

  lemma EligibleOnce(rows: seq<Row>, world: World)
    requires DistinctBy(rows, (r: Row) => r.phone)
    ensures DistinctBy(EligibleOf(rows, world), (r: Row) => r.phone)
  {
    PickedDistinct(rows, AllVerdicts(Chunks(rows, MAX_BATCH), world.lookup));
  }

  lemma OnePerPhone(rows: seq<Row>, valid: seq<Row>)
    requires Deduplicates(rows, valid)
    ensures DistinctBy(rows, (r: Row) => r.phone)
  {
  }

  lemma NothingToDo(world: World)
    ensures BookingsOf([], world) == [] && MarksOf([], world) == []
  {
  }

  // ---------------------------------------------------------------- one more of each

  lemma NothingLookedUp(lookup: nat -> Answer<LookupResult>)
    ensures AllVerdicts([], lookup) == [] && Flatten<Row>([]) == []
    ensures Picked([], []) == [] && LookupIssues([], []) == [] && Tally([]) == LookupCounts(0, 0, 0, 0, 0, 0)
  {
  }

  lemma LookedUpNext(batches: seq<seq<Row>>, lookup: nat -> Answer<LookupResult>, k: nat)
    requires k < |batches|
    ensures var upTo, next := batches[..k], batches[..k + 1];
            var v, w := AllVerdicts(upTo, lookup), Verdicts(batches[k], Replies(lookup(k)));
            && AllVerdicts(next, lookup) == v + w
            && Flatten(next) == Flatten(upTo) + batches[k]
            && Picked(Flatten(next), v + w) == Picked(Flatten(upTo), v) + Picked(batches[k], w)
            && LookupIssues(Flatten(next), v + w) == LookupIssues(Flatten(upTo), v) + LookupIssues(batches[k], w)
            && Tally(v + w) == Plus(Tally(v), Tally(w))
  {
    hide Picked, LookupIssues, Tally, Verdicts;
    var upTo, next := batches[..k], batches[..k + 1];
    assert next == upTo + [batches[k]] && next[..k] == upTo;
    FlattenLast(upTo, batches[k]);
    var v, w := AllVerdicts(upTo, lookup), Verdicts(batches[k], Replies(lookup(k)));
    assert AllVerdicts(next, lookup) == v + w;
    hide AllVerdicts, Flatten;
    PickedConcat(Flatten(upTo), v, batches[k], w);
    IssuesConcat(Flatten(upTo), v, batches[k], w);
    TallyConcat(v, w);
  }

  lemma NoReplies(c: ScheduleCounts, prepared: seq<Row>)
    ensures Handled([], |prepared|) == [] && IndexSet([]) == {} && CountReplies(c, [], |prepared|) == c
    ensures ReplyIssues([], Ids(prepared)) == [] && Bookings(Booked([], |prepared|), prepared) == []
  {
  }

  lemma IdAt(prepared: seq<Row>, i: nat)
    requires i < |prepared|
    ensures Ids(prepared)[i] == prepared[i].externalId
  {
  }

  lemma TakesByIndex(handled: seq<ScheduleReply>, reply: ScheduleReply, n: nat)
    requires forall h :: h in handled ==> h.index.At?
    ensures Takes(handled, reply, n) <==>
            reply.index.At? && 0 <= reply.index.i < n && reply.index.i !in IndexSet(handled)
  {
  }

  lemma ReplyNext(c: ScheduleCounts, replies: seq<ScheduleReply>, i: nat, prepared: seq<Row>)
    requires i < |replies|
    ensures var n, ids, r, b := |prepared|, Ids(prepared), replies[i], replies[..i];
            var takes, o := Takes(Handled(b, n), r, n), OutcomeOf(r);
            var before := CountReplies(c, b, n);
            var upTo := replies[..i + 1];
            && IndexSet(Handled(upTo, n)) == IndexSet(Handled(b, n)) + (if takes then {r.index.i} else {})
            && CountReplies(c, upTo, n) ==
               (if takes then Count(before, o) else before.(failed := before.failed + 1))
            && ReplyIssues(upTo, ids) == ReplyIssues(b, ids) +
               (if !takes then [Issue(None, "schedule", "invalid_result_index", false)]
                else match o
                  case Skipped(reason) => [Issue(Some(ids[r.index.i]), "schedule", reason, false)]
                  case NotScheduled(reason) => [Issue(Some(ids[r.index.i]), "schedule", reason, false)]
                  case _ => [])
            && Bookings(Booked(upTo, n), prepared) == Bookings(Booked(b, n), prepared) +
               (if takes && (o.Scheduled? || o.AlreadyScheduled?)
                then [Booking(prepared[r.index.i], r.callId, r.status)] else [])
  {
    hide OutcomeOf, Count, Total, Takes, Ids, Booked, Bookings, IndexSet;
    var upTo := replies[..i + 1];
    assert upTo[..i] == replies[..i] && upTo[i] == replies[i];
    HandledNext(replies[..i], upTo, |prepared|);
    BookedNext(replies[..i], upTo, prepared);
  }

  lemma HandledNext(before: seq<ScheduleReply>, upTo: seq<ScheduleReply>, n: nat)
    requires upTo != [] && before == upTo[..|upTo| - 1]
    ensures var r := upTo[|upTo| - 1];
            IndexSet(Handled(upTo, n)) ==
            IndexSet(Handled(before, n)) + (if Takes(Handled(before, n), r, n) then {r.index.i} else {})
  {
  }

  lemma BookedNext(before: seq<ScheduleReply>, upTo: seq<ScheduleReply>, prepared: seq<Row>)
    requires upTo != [] && before == upTo[..|upTo| - 1]
    ensures var n, r := |prepared|, upTo[|upTo| - 1];
            var books := Takes(Handled(before, n), r, n) && (OutcomeOf(r).Scheduled? || OutcomeOf(r).AlreadyScheduled?);
            Bookings(Booked(upTo, n), prepared) == Bookings(Booked(before, n), prepared) +
            (if books then [Booking(prepared[r.index.i], r.callId, r.status)] else [])
  {
    hide OutcomeOf, Handled;
    var n, r := |prepared|, upTo[|upTo| - 1];
    var a := Booked(before, n);
    var books := Takes(Handled(before, n), r, n) && (OutcomeOf(r).Scheduled? || OutcomeOf(r).AlreadyScheduled?);
    assert Booked(upTo, n) == if books then a + [r] else a;
    hide Booked;
    assert forall x :: x in a ==> x in Handled(before, n);
    if books {
      assert Bookings(a + [r], prepared) == Bookings(a, prepared) + [Booking(prepared[r.index.i], r.callId, r.status)];
    }
  }

  lemma NothingScheduled(world: World)
    ensures CountAll([], world) == ScheduleCounts(0, 0, 0, 0, 0)
    ensures AllBookings([], world) == [] && AllScheduleIssues([], world) == []
  {
  }

  lemma ScheduleNext(batches: seq<seq<Row>>, world: World, k: nat)
    requires k < |batches|
    ensures var replies, fits, b, upTo := Replies(world.schedule(k)), world.itemFits, batches[..k], batches[..k + 1];
            && CountAll(upTo, world) == CountBatch(CountAll(b, world), batches[k], replies, fits)
            && AllBookings(upTo, world) == AllBookings(b, world) + BatchBookings(batches[k], replies, fits)
            && AllScheduleIssues(upTo, world) == AllScheduleIssues(b, world) + BatchIssues(batches[k], replies, fits)
  {
    hide CountBatch, BatchBookings, BatchIssues;
    assert batches[..k + 1][..k] == batches[..k] && batches[..k + 1][k] == batches[k];
  }

  lemma NoActivity(world: World)
    ensures AllConfirmed([], world) == [] && AllUnconfirmed([], world) == [] && Submitted([], world.activityFits) == 0
  {
  }

  lemma ActivityNext(batches: seq<seq<Booking>>, world: World, k: nat)
    requires k < |batches|
    ensures var replies, fits, b, upTo :=
        Replies(world.activity(k)), world.activityFits, batches[..k], batches[..k + 1];
            && AllConfirmed(upTo, world) == AllConfirmed(b, world) + BatchConfirmed(batches[k], replies, fits)
            && AllUnconfirmed(upTo, world) == AllUnconfirmed(b, world) + BatchUnconfirmed(batches[k], replies, fits)
            && Submitted(upTo, fits) == Submitted(b, fits) + |FittingBookings(batches[k], fits)|
  {
    hide BatchConfirmed, BatchUnconfirmed, FittingBookings;
    assert batches[..k + 1][..k] == batches[..k] && batches[..k + 1][k] == batches[k];
  }

  lemma HandledBelow(replies: seq<ScheduleReply>, n: nat)
    ensures forall i :: i in IndexSet(Handled(replies, n)) ==> 0 <= i < n
  {
  }

  lemma NothingConfirmed(replies: seq<ActivityReply>)
    ensures Confirmed([], replies) == [] && Unconfirmed([], replies) == []
  {
  }

  lemma NothingNamed()
    ensures forall i: nat :: Named([], i) == None
  {
  }

  lemma NamedNext(replies: seq<ActivityReply>, j: nat)
    requires j < |replies|
    ensures forall i: nat :: Named(replies[..j + 1], i) ==
                             if replies[j].index == At(i) then Some(replies[j]) else Named(replies[..j], i)
  {
    assert replies[..j + 1][..j] == replies[..j];
  }

  lemma ConfirmedNext(prepared: seq<Booking>, replies: seq<ActivityReply>, i: nat)
    requires i < |prepared|
    ensures Confirmed(prepared[..i + 1], replies) ==
            Confirmed(prepared[..i], replies) + (if Succeeds(replies, i) then [prepared[i]] else [])
    ensures Unconfirmed(prepared[..i + 1], replies) ==
            Unconfirmed(prepared[..i], replies)
            + (if Succeeds(replies, i) then []
               else [Issue(Some(prepared[i].row.externalId), "activity_upsert", FailureCode(replies, i), true)])
  {
    hide Succeeds, FailureCode;
    assert prepared[..i + 1][..i] == prepared[..i];
  }
}
