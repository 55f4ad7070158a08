// What the callers of the participant cache may count on: how fresh a roster they waited for
// is, and exactly who may be cancelled and why.
module SingleFlightCallers {
  import opened Common
  import opened SingleFlight

  lemma OneMoreEvent(events: seq<Event>, e: Event)
    ensures Run(events + [e]) == Step(Run(events), e)
  {
    assert (events + [e])[..|events|] == events;
  }

  // ---- What exactly a caller is handed ----

  // Nobody is cancelled on its own account while its task is unfinished: the request goes to
  // the task.
  ghost predicate Patient(s: State, c: CallerId) {
    c in s.waiting && s.waiting[c].cancelled ==> !Unfinished(s, s.waiting[c].task)
  }

  lemma StepKeepsPatient(s: State, e: Event, c: CallerId)
    requires TableHolds(s) && Patient(s, c)
    ensures Patient(Step(s, e), c)
  {
    assert WaitGood(s, c);
  }

  lemma {:induction false} RunKeepsPatient(events: seq<Event>, c: CallerId)
    ensures Patient(Run(events), c)
  {
    if |events| > 0 {
      var before := events[..|events| - 1];
      RunKeepsPatient(before, c);
      RunKeepsInv(before);
      hide Step, Patient, TableHolds;
      StepKeepsPatient(Run(before), events[|events| - 1], c);
    }
  }

  // When a fetch comes to its end, every caller awaiting it is handed the very roster that
  // was listed, which is also what a caller entering now is served; or the empty roster of a
  // failure; or the cancellation.
  lemma EveryWaiterIsHandedTheListing(events: seq<Event>, t: TaskId, closing: Closing, c: CallerId)
    requires Enabled(Run(events), CloseEnds(t, closing))
    requires c in Run(events).waiting && Run(events).waiting[c].task == t
    ensures var s := Run(events); var s' := Run(events + [CloseEnds(t, closing)]); var listing := s.tasks[t].phase.listing;
            && Enabled(s', Resume(c))
            && (closing.Closed? && listing.Listed? ==>
                  Received(s', c) == Returned(listing.roster) && Hit(s', s.tasks[t].room) == Some(listing.roster))
            && (closing.CloseFailed? || (closing.Closed? && listing.ListFailed?) ==>
                  Received(s', c) == Returned([]) && s'.cache == s.cache)
            && (closing.CloseInterrupted? || (closing.Closed? && listing.ListInterrupted?) ==>
                  Received(s', c) == Cancelled && s'.cache == s.cache)
  {
    RunKeepsPatient(events, c);
    OneMoreEvent(events, CloseEnds(t, closing));
    hide Run;
  }

  // A client that cannot be built is such a failure; and a task that has begun its listing
  // has no outcome yet.
  lemma FirstStepOutcome(events: seq<Event>, t: TaskId, built: bool, c: CallerId)
    requires Enabled(Run(events), FirstStep(t, built))
    requires c in Run(events).waiting && Run(events).waiting[c].task == t
    ensures var s := Run(events); var s' := Run(events + [FirstStep(t, built)]);
            && s'.cache == s.cache
            && (s.tasks[t].cancelRequested ==> Enabled(s', Resume(c)) && Received(s', c) == Cancelled)
            && (!s.tasks[t].cancelRequested && !built ==> Enabled(s', Resume(c)) && Received(s', c) == Returned([]))
            && (!s.tasks[t].cancelRequested && built ==> Unfinished(s', t) && s'.tasks[t].phase.Fetching?)
  {
    RunKeepsPatient(events, c);
    OneMoreEvent(events, FirstStep(t, built));
    hide Run;
  }

  // A cancellation is delivered once: after the listing has come back, the close is
  // interrupted only if some caller is cancelled anew.
  lemma CloseIsInterruptedOnlyAnew(s: State, t: TaskId, listing: Listing, e: Event)
    requires Enabled(s, ListingEnds(t, listing))
    ensures var s' := Step(s, ListingEnds(t, listing));
            && s'.tasks[t].phase == AwaitingClose(listing)
            && !Enabled(s', CloseEnds(t, CloseInterrupted))
            && (Enabled(Step(s', e), CloseEnds(t, CloseInterrupted)) ==>
                  e.CancelCaller? && e.caller in s.waiting && s.waiting[e.caller].task == t)
  {
  }

  // A failure of task t: of its client, its listing or its close.
  predicate Fails(s: State, e: Event, t: TaskId) {
    Enabled(s, e) && (e == FirstStep(t, false) || e == ListingEnds(t, ListFailed) || e == CloseEnds(t, CloseFailed))
  }

  ghost predicate FailsAt(events: seq<Event>, i: nat, t: TaskId) {
    i < |events| && Fails(Run(events[..i]), events[i], t)
  }

  ghost predicate Failed(events: seq<Event>, t: TaskId) {
    exists i: nat :: FailsAt(events, i, t)
  }

  lemma FailedBefore(events: seq<Event>, e: Event, t: TaskId)
    ensures Failed(events, t) ==> Failed(events + [e], t)
    ensures Fails(Run(events), e, t) ==>
              Failed(events + [e], t)
  {
    var all := events + [e];
    assert all[..|events|] == events;
    if Failed(events, t) {
      var i: nat :| FailsAt(events, i, t);
      assert all[..i] == events[..i];
      assert FailsAt(all, i, t);
    }
    if Fails(Run(events), e, t) {
      assert FailsAt(all, |events|, t);
    }
  }

  // Done with a roster that it has fetched, or with the empty one of a failure, of which a
  // failed listing still being closed is one.
  ghost predicate Accounted(s: State, t: TaskId, failed: bool) {
    t < |s.tasks| ==>
      && (s.tasks[t].phase == AwaitingClose(ListFailed) ==> failed)
      && (s.tasks[t].phase.Done? && s.tasks[t].phase.outcome.Returned? ==>
            || (exists at :: Fetched(s, s.tasks[t].room, s.tasks[t].phase.outcome.roster, at))
            || (failed && s.tasks[t].phase.outcome.roster == []))
  }

  lemma SameTaskAccounted(s: State, e: Event, t: TaskId, failed: bool)
    requires Accounted(s, t, failed) && t < |s.tasks| && t < |Step(s, e).tasks|
    requires s.tasks[t] == Step(s, e).tasks[t]
    ensures Accounted(Step(s, e), t, failed)
  {
    hide Step;
    var task := s.tasks[t];
    if task.phase.Done? && task.phase.outcome.Returned? && !(failed && task.phase.outcome.roster == []) {
      var at :| Fetched(s, task.room, task.phase.outcome.roster, at);
      FetchedStays(s, e, task.room, task.phase.outcome.roster, at);
    }
  }

  lemma ChangedTaskAccounted(s: State, e: Event, t: TaskId, failed: bool)
    requires Accounted(s, t, failed) && |s.tasks| <= |Step(s, e).tasks|
    requires t < |s.tasks| ==> s.tasks[t] != Step(s, e).tasks[t]
    ensures Accounted(Step(s, e), t, failed || Fails(s, e, t))
  {
    var s' := Step(s, e);
    if t < |s.tasks| && Enabled(s, e) && e == CloseEnds(t, Closed) && s.tasks[t].phase.listing.Listed? {
      assert s'.fetches[|s.fetches|] == Fetch(s.tasks[t].room, s.clock, s.tasks[t].phase.listing.roster);
      assert Fetched(s', s.tasks[t].room, s.tasks[t].phase.listing.roster, s.clock);
    }
  }

  // Over all runs: the roster a task returned is one recorded for its room, or the task failed
  // and its roster is empty. No caller sees an empty room for any other reason.
  lemma {:induction false} ReturnedIsFetchedOrFailed(events: seq<Event>, t: TaskId)
    ensures Accounted(Run(events), t, Failed(events, t))
  {
    if |events| > 0 {
      var n := |events| - 1;
      var before, e := events[..n], events[n];
      assert events == before + [e];
      ReturnedIsFetchedOrFailed(before, t);
      OneMoreEvent(before, e);
      FailedBefore(before, e, t);
      TasksStay(Run(before), e);
      hide Run, Failed;
      if t < |Run(before).tasks| && Run(before).tasks[t] == Step(Run(before), e).tasks[t] {
        SameTaskAccounted(Run(before), e, t, Failed(before, t));
        hide Step;
      } else {
        ChangedTaskAccounted(Run(before), e, t, Failed(before, t));
        hide Step;
      }
    }
  }

  // ---- Freshness of what was waited for ----

  // A caller waits since no later than now, and if its task is done with a roster, that was
  // fetched since, or is the empty one of a failure.
  ghost predicate FetchedSince(s: State, room: Room, roster: Roster, since: real) {
    exists at :: since <= at && Fetched(s, room, roster, at)
  }

  ghost predicate FreshFor(s: State, c: CallerId, failed: bool) {
    c in s.waiting ==>
      && s.waiting[c].since <= s.clock
      && s.waiting[c].task < |s.tasks|
      && var task := s.tasks[s.waiting[c].task];
         task.phase.Done? && task.phase.outcome.Returned? ==>
           || FetchedSince(s, task.room, task.phase.outcome.roster, s.waiting[c].since)
           || (failed && task.phase.outcome.roster == [])
  }

  lemma FetchedSinceStays(s: State, e: Event, room: Room, roster: Roster, since: real)
    requires FetchedSince(s, room, roster, since)
    ensures FetchedSince(Step(s, e), room, roster, since)
  {
    var at :| since <= at && Fetched(s, room, roster, at);
    FetchedStays(s, e, room, roster, at);
  }

  // Time does not go back, and what a caller waits for does not change while it waits.
  lemma WaitStays(s: State, e: Event, c: CallerId)
    requires c in s.waiting && c in Step(s, e).waiting
    ensures s.clock <= Step(s, e).clock
    ensures Step(s, e).waiting[c] == s.waiting[c] || Step(s, e).waiting[c] == s.waiting[c].(cancelled := true)
  {
  }

  // A caller that is new waits for a task not done.
  lemma NewWait(s: State, e: Event, c: CallerId)
    requires TableHolds(s) && c !in s.waiting && c in Step(s, e).waiting
    ensures var w := Step(s, e).waiting[c];
            && e.Enter? && e.caller == c && w.since == Step(s, e).clock && !w.cancelled && Unfinished(Step(s, e), w.task)
  {
    if e.Enter? { assert EntryGood(s, e.room); }
  }

  // A task that becomes done with a roster has fetched it just now, or has failed.
  lemma DoneJustNow(s: State, e: Event, t: TaskId, failed: bool)
    requires t < |s.tasks| && s.tasks[t] != Step(s, e).tasks[t] && Accounted(s, t, failed)
    requires |s.tasks| <= |Step(s, e).tasks|
    ensures Step(s, e).tasks[t].room == s.tasks[t].room
    ensures var phase := Step(s, e).tasks[t].phase;
            phase.Done? && phase.outcome.Returned? ==>
              || Fetched(Step(s, e), s.tasks[t].room, phase.outcome.roster, Step(s, e).clock)
              || ((failed || Fails(s, e, t)) && phase.outcome.roster == [])
  {
    var s' := Step(s, e);
    if Enabled(s, e) && e == CloseEnds(t, Closed) && s.tasks[t].phase.listing.Listed? {
      assert s'.fetches[|s.fetches|] == Fetch(s.tasks[t].room, s.clock, s.tasks[t].phase.listing.roster);
    }
  }

  lemma StepKeepsFresh(s: State, e: Event, c: CallerId, failed: bool, failedNow: bool)
    requires TableHolds(s) && FreshFor(s, c, failed)
    requires c in s.waiting ==> Accounted(s, s.waiting[c].task, failed) && (failedNow <== failed || Fails(s, e, s.waiting[c].task))
    ensures FreshFor(Step(s, e), c, failedNow)
  {
    var s' := Step(s, e);
    TasksStay(s, e);
    if c in s'.waiting {
      if c !in s.waiting {
        NewWait(s, e, c);
      } else {
        WaitStays(s, e, c);
        var t := s.waiting[c].task;
        hide Step, TableHolds;
        if s.tasks[t] != s'.tasks[t] {
          DoneJustNow(s, e, t, failed);
        } else if s.tasks[t].phase.Done? && s.tasks[t].phase.outcome.Returned? && !(failed && s.tasks[t].phase.outcome.roster == []) {
          FetchedSinceStays(s, e, s.tasks[t].room, s.tasks[t].phase.outcome.roster, s.waiting[c].since);
        }
      }
    }
  }

  ghost predicate TaskFailed(events: seq<Event>, c: CallerId) {
    c in Run(events).waiting && Failed(events, Run(events).waiting[c].task)
  }

  lemma {:induction false} RunKeepsFresh(events: seq<Event>, c: CallerId)
    ensures FreshFor(Run(events), c, TaskFailed(events, c))
  {
    if |events| > 0 {
      var n := |events| - 1;
      var before, e := events[..n], events[n];
      assert events == before + [e];
      RunKeepsFresh(before, c);
      RunKeepsInv(before);
      OneMoreEvent(before, e);
      if c in Run(before).waiting {
        var t := Run(before).waiting[c].task;
        ReturnedIsFetchedOrFailed(before, t);
        FailedBefore(before, e, t);
        if c in Run(events).waiting { WaitStays(Run(before), e, c); }
      }
      hide Run, Step, FreshFor, TableHolds, Failed, Fails, Accounted;
      if c in Run(events).waiting { StepKeepsFresh(Run(before), e, c, TaskFailed(before, c), TaskFailed(events, c)); }
      else { NobodyWaits(Run(events), c, TaskFailed(events, c)); }
    }
  }

  lemma NobodyWaits(s: State, c: CallerId, failed: bool)
    requires c !in s.waiting
    ensures FreshFor(s, c, failed)
  {
  }

  // A caller that missed the cache is handed a roster of its room fetched no earlier than it
  // entered; or the empty one, and then its task failed; or a cancellation.
  lemma MissesAreNeverStale(events: seq<Event>, c: CallerId)
    requires Enabled(Run(events), Resume(c)) && Received(Run(events), c).Returned?
    ensures var s := Run(events); var roster := Received(s, c).roster;
            || FetchedSince(s, s.waiting[c].room, roster, s.waiting[c].since)
            || (roster == [] && Failed(events, s.waiting[c].task))
  {
    RunKeepsFresh(events, c);
    RunKeepsInv(events);
    assert WaitGood(Run(events), c);
    hide Run, Step, Failed;
  }

  // ---- Cancellation ----

  // The i-th event cancels a caller that at that moment awaits task t.
  ghost predicate CancelsWaiterOf(events: seq<Event>, i: nat, t: TaskId) {
    && i < |events| && events[i].CancelCaller? && Enabled(Run(events[..i]), events[i])
    && Run(events[..i]).waiting[events[i].caller].task == t
  }

  ghost predicate SomeWaiterCancelled(events: seq<Event>, t: TaskId) {
    exists i: nat :: CancelsWaiterOf(events, i, t)
  }

  lemma CancelledBefore(events: seq<Event>, e: Event, t: TaskId)
    ensures SomeWaiterCancelled(events, t) ==> SomeWaiterCancelled(events + [e], t)
    ensures (e.CancelCaller? && Enabled(Run(events), e) && Run(events).waiting[e.caller].task == t) ==>
              SomeWaiterCancelled(events + [e], t)
    ensures SomeWaiterCancelled(events + [e], t) ==>
              || SomeWaiterCancelled(events, t)
              || (e.CancelCaller? && Enabled(Run(events), e) && Run(events).waiting[e.caller].task == t)
  {
    var all := events + [e];
    assert all[..|events|] == events;
    if SomeWaiterCancelled(events, t) {
      var i: nat :| CancelsWaiterOf(events, i, t);
      assert all[..i] == events[..i];
      assert CancelsWaiterOf(all, i, t);
    }
    if e.CancelCaller? && Enabled(Run(events), e) && Run(events).waiting[e.caller].task == t {
      assert CancelsWaiterOf(all, |events|, t);
    }
    if SomeWaiterCancelled(all, t) {
      var i: nat :| CancelsWaiterOf(all, i, t);
      if i < |events| {
        assert all[..i] == events[..i];
        assert CancelsWaiterOf(events, i, t);
      }
    }
  }

  // A task is asked to stop, or has been stopped.
  predicate Stopping(s: State, t: TaskId) {
    t < |s.tasks| &&
    (|| s.tasks[t].cancelRequested
     || s.tasks[t].phase == AwaitingClose(ListInterrupted)
     || (s.tasks[t].phase.Done? && s.tasks[t].phase.outcome == Cancelled))
  }

  lemma StoppingStarts(s: State, e: Event, t: TaskId)
    requires !Stopping(s, t) && Stopping(Step(s, e), t)
    ensures e.CancelCaller? && Enabled(s, e) && s.waiting[e.caller].task == t
  {
  }

  lemma CallerCancelledBy(s: State, e: Event, c: CallerId)
    requires c in Step(s, e).waiting && Step(s, e).waiting[c].cancelled
    ensures c in s.waiting && s.waiting[c].task == Step(s, e).waiting[c].task
    ensures s.waiting[c].cancelled || (e == CancelCaller(c) && Enabled(s, e))
  {
  }

  lemma {:induction false} StoppedOnRequest(events: seq<Event>, t: TaskId)
    ensures Stopping(Run(events), t) ==> SomeWaiterCancelled(events, t)
  {
    if |events| > 0 {
      var n := |events| - 1;
      var before, e := events[..n], events[n];
      assert events == before + [e];
      StoppedOnRequest(before, t);
      CancelledBefore(before, e, t);
      OneMoreEvent(before, e);
      hide Run, Step, Stopping, SomeWaiterCancelled;
      if Stopping(Run(events), t) && !Stopping(Run(before), t) { StoppingStarts(Run(before), e, t); }
    }
  }

  lemma {:induction false} CancelledOnRequest(events: seq<Event>, c: CallerId)
    ensures c in Run(events).waiting && Run(events).waiting[c].cancelled ==>
              SomeWaiterCancelled(events, Run(events).waiting[c].task)
  {
    if |events| > 0 {
      var n := |events| - 1;
      var before, e := events[..n], events[n];
      assert events == before + [e];
      CancelledOnRequest(before, c);
      OneMoreEvent(before, e);
      if c in Run(events).waiting && Run(events).waiting[c].cancelled {
        CallerCancelledBy(Run(before), e, c);
        CancelledBefore(before, e, Run(events).waiting[c].task);
      }
    }
  }

  // Over all runs: a task ends cancelled only if some caller awaiting that very task was
  // cancelled earlier.
  lemma TasksAreCancelledOnlyOnRequest(events: seq<Event>, t: TaskId)
    requires t < |Run(events).tasks| && Run(events).tasks[t].phase.Done?
    requires Run(events).tasks[t].phase.outcome == Cancelled
    ensures SomeWaiterCancelled(events, t)
  {
    StoppedOnRequest(events, t);
  }

  // So a caller handed a cancellation was cancelled itself, or shares its task with one that was.
  lemma CallersAreCancelledOnlyOnRequest(events: seq<Event>, c: CallerId)
    requires Enabled(Run(events), Resume(c)) && Received(Run(events), c) == Cancelled
    ensures SomeWaiterCancelled(events, Run(events).waiting[c].task)
  {
    CancelledOnRequest(events, c);
    if !Run(events).waiting[c].cancelled { StoppedOnRequest(events, Run(events).waiting[c].task); }
  }

  // A cancelled caller is told so, if its task is done by then; otherwise the task is asked to
  // stop, for everybody who awaits it.
  lemma CancelledCallerIsTold(s: State, c: CallerId)
    requires Enabled(s, CancelCaller(c))
    ensures var s' := Step(s, CancelCaller(c)); var t := s.waiting[c].task;
            && c in s'.waiting && s'.waiting[c].task == t
            && (Unfinished(s, t) ==> s'.tasks == s.tasks[t := s.tasks[t].(cancelRequested := true)] && s'.waiting == s.waiting)
            && (!Unfinished(s, t) ==>
                  && Enabled(s', Resume(c)) && Received(s', c) == Cancelled && s'.tasks == s.tasks
                  && forall d :: d != c && d in s.waiting ==> d in s'.waiting && s'.waiting[d] == s.waiting[d])
  {
  }

  // All a caller can be handed, over all runs: a roster fetched for the room it asked for, the
  // empty one because its task failed, or a cancellation because one awaiting that task was
  // cancelled.
  lemma CallersReceiveTheirRoom(events: seq<Event>, c: CallerId)
    requires Enabled(Run(events), Resume(c))
    ensures var s := Run(events); var t := s.waiting[c].task;
            match Received(s, c)
            case Returned(roster) => (exists at :: Fetched(s, s.waiting[c].room, roster, at)) || (roster == [] && Failed(events, t))
            case Cancelled => SomeWaiterCancelled(events, t)
  {
    RunKeepsInv(events);
    assert WaitGood(Run(events), c);
    hide Run, Step, Failed, SomeWaiterCancelled, Inv;
    ReturnedIsFetchedOrFailed(events, Run(events).waiting[c].task);
    if Received(Run(events), c).Cancelled? { CallersAreCancelledOnlyOnRequest(events, c); }
  }

  // ---- Tasks not yet begun: the exact condition ----

  lemma ScheduledStays(s: State, e: Event, t: TaskId)
    requires t < |Step(s, e).tasks| && Step(s, e).tasks[t].phase.Scheduled?
    ensures t < |s.tasks| ==> s.tasks[t].phase.Scheduled? && (s.tasks[t].cancelRequested ==> Step(s, e).tasks[t].cancelRequested)
    ensures t < |s.tasks| && e.CancelCaller? && Enabled(s, e) && s.waiting[e.caller].task == t ==> Step(s, e).tasks[t].cancelRequested
  {
  }

  lemma {:induction false} NoWaiterBefore(events: seq<Event>, t: TaskId)
    requires t >= |Run(events).tasks|
    ensures !SomeWaiterCancelled(events, t)
  {
    if |events| > 0 {
      var n := |events| - 1;
      var before, e := events[..n], events[n];
      assert events == before + [e];
      OneMoreEvent(before, e);
      TasksStay(Run(before), e);
      NoWaiterBefore(before, t);
      CancelledBefore(before, e, t);
    }
  }

  lemma {:induction false} AskedIffRequested(events: seq<Event>, t: TaskId)
    requires t < |Run(events).tasks| && Run(events).tasks[t].phase.Scheduled?
    ensures Run(events).tasks[t].cancelRequested <==> SomeWaiterCancelled(events, t)
  {
    StoppedOnRequest(events, t);
    if |events| > 0 {
      var n := |events| - 1;
      var before, e := events[..n], events[n];
      assert events == before + [e];
      OneMoreEvent(before, e);
      ScheduledStays(Run(before), e, t);
      CancelledBefore(before, e, t);
      if t < |Run(before).tasks| { AskedIffRequested(before, t); } else { NoWaiterBefore(before, t); }
    }
  }

  // A task that has not begun is cancelled at its first step exactly if some caller awaiting
  // it was cancelled, whichever; and then all of them are. Later it is one-way only: a
  // listing that was asked to stop may still come back with a roster or a failure, and a
  // failing close turns even a cancellation into a failure.
  lemma NotBegunIsCancelledIff(events: seq<Event>, t: TaskId, built: bool)
    requires t < |Run(events).tasks| && Run(events).tasks[t].phase.Scheduled?
    ensures var s := Run(events + [FirstStep(t, built)]);
            t < |s.tasks| && (s.tasks[t].phase == Done(Cancelled, false) <==> SomeWaiterCancelled(events, t))
  {
    AskedIffRequested(events, t);
    OneMoreEvent(events, FirstStep(t, built));
  }

  // A caller nobody cancelled is handed a cancellation: the shortest run.
  lemma CancellationReachesABystander()
    ensures var two := [] + [Enter(1, "den")] + [Enter(2, "den")];
            var events := two + [CancelCaller(1), FirstStep(0, true)];
            && CancelCaller(2) !in events
            && Enabled(Run(events), Resume(2)) && Received(Run(events), 2) == Cancelled
  {
    var two := [] + [Enter(1, "den")] + [Enter(2, "den")];
    OneMoreEvent([], Enter(1, "den"));
    OneMoreEvent([] + [Enter(1, "den")], Enter(2, "den"));
    assert Run(two).waiting[1].task == 0 && Run(two).waiting[2].task == 0 && Run(two).tasks[0].phase.Scheduled?;
    hide Run, Step;
    CancellationIsShared(two, 1, 2, true);
  }

  // And once its listing is under way, a task that was asked to stop may end as a failure.
  lemma StoppedListingMayEndAsFailure(events: seq<Event>, t: TaskId)
    requires SomeWaiterCancelled(events, t) && t < |Run(events).tasks| && Run(events).tasks[t].phase.Fetching?
    ensures var all := events + [ListingEnds(t, ListFailed)] + [CloseEnds(t, Closed)];
            && SomeWaiterCancelled(all, t)
            && t < |Run(all).tasks| && Run(all).tasks[t].phase == Done(Returned([]), true)
  {
    var one := events + [ListingEnds(t, ListFailed)];
    CancelledBefore(events, ListingEnds(t, ListFailed), t);
    CancelledBefore(one, CloseEnds(t, Closed), t);
    OneMoreEvent(events, ListingEnds(t, ListFailed));
    OneMoreEvent(one, CloseEnds(t, Closed));
    hide SomeWaiterCancelled, Run;
  }
}
