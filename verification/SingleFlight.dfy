// The participant cache of the voice router: a TTL cache in front of the LiveKit room
// listing, with at most one upstream fetch per room in flight. The code between two awaits
// runs atomically, so every event below is one such stretch of code, of a caller or of the
// fetch task it shares with other callers.
module SingleFlight {
  import opened Common

  type Room = string
  type TaskId = nat
  type CallerId = nat
  datatype Participant = Participant(identity: string, name: string)
  type Roster = seq<Participant>

  const PARTICIPANTS_TTL: real := 5.0

  datatype Entry = Entry(expires: real, roster: Roster)

  // How the awaited listing call, and then the awaited client close, come back.
  datatype Listing = Listed(roster: Roster) | ListFailed | ListInterrupted
  datatype Closing = Closed | CloseFailed | CloseInterrupted

  datatype Outcome = Returned(roster: Roster) | Cancelled

  // A task is done either after running its body (and so its final clean-up), or because it
  // was cancelled before its first step, in which case nothing of the body ever ran.
  datatype Phase =
    | Scheduled
    | Fetching
    | AwaitingClose(listing: Listing)
    | Done(outcome: Outcome, ran: bool)

  datatype Task = Task(room: Room, phase: Phase, cancelRequested: bool)
  // `since` is when the caller entered. History only.
  datatype Wait = Wait(room: Room, task: TaskId, since: real, cancelled: bool)

  // One successful upstream fetch, in the order of completion. History only.
  datatype Fetch = Fetch(room: Room, at: real, roster: Roster)

  datatype State = State(
    clock: real,
    cache: map<Room, Entry>,
    inflight: map<Room, TaskId>,
    tasks: seq<Task>,
    waiting: map<CallerId, Wait>,
    fetches: seq<Fetch>)

  datatype Event =
    | Pass(later: real)
    | Enter(caller: CallerId, room: Room)
    | FirstStep(task: TaskId, clientBuilt: bool)
    | ListingEnds(task: TaskId, listing: Listing)
    | CloseEnds(task: TaskId, closing: Closing)
    | CancelCaller(caller: CallerId)
    | Resume(caller: CallerId)

  const Initial := State(0.0, map[], map[], [], map[], [])

  predicate Unfinished(s: State, t: TaskId) {
    t < |s.tasks| && !s.tasks[t].phase.Done?
  }

  // An awaited call is interrupted only if somebody asked for the cancellation; a call that
  // was asked to stop may still come back in any way.
  predicate Enabled(s: State, e: Event) {
    match e
    case Pass(later) => s.clock <= later
    case Enter(c, _) => c !in s.waiting
    case FirstStep(t, _) => t < |s.tasks| && s.tasks[t].phase.Scheduled?
    case ListingEnds(t, l) =>
      t < |s.tasks| && s.tasks[t].phase.Fetching? && (l.ListInterrupted? ==> s.tasks[t].cancelRequested)
    case CloseEnds(t, k) =>
      t < |s.tasks| && s.tasks[t].phase.AwaitingClose? && (k.CloseInterrupted? ==> s.tasks[t].cancelRequested)
    case CancelCaller(c) => c in s.waiting && s.waiting[c].task < |s.tasks|
    case Resume(c) => c in s.waiting && s.waiting[c].task < |s.tasks| && !Unfinished(s, s.waiting[c].task)
  }

  // What a caller entering now is served from memory, if anything.
  function Hit(s: State, room: Room): Option<Roster> {
    if room in s.cache && s.cache[room].expires > s.clock then Some(s.cache[room].roster) else None
  }

  // What a caller is handed when it resumes.
  function Received(s: State, c: CallerId): Outcome
    requires Enabled(s, Resume(c))
  {
    if s.waiting[c].cancelled then Cancelled else s.tasks[s.waiting[c].task].phase.outcome
  }

  // An interrupted close replaces everything by the cancellation; a failed close replaces
  // even a cancellation by an ordinary failure, which the task turns into an empty roster.
  function OutcomeOf(listing: Listing, closing: Closing): Outcome {
    match closing
    case CloseInterrupted => Cancelled
    case CloseFailed => Returned([])
    case Closed =>
      match listing
      case Listed(roster) => Returned(roster)
      case ListFailed => Returned([])
      case ListInterrupted => Cancelled
  }

  function Finish(s: State, t: TaskId, outcome: Outcome): State
    requires t < |s.tasks|
  {
    s.(tasks := s.tasks[t := s.tasks[t].(phase := Done(outcome, true))],
       inflight := s.inflight - {s.tasks[t].room})
  }

  function Remember(s: State, room: Room, roster: Roster): State {
    s.(cache := s.cache[room := Entry(s.clock + PARTICIPANTS_TTL, roster)],
       fetches := s.fetches + [Fetch(room, s.clock, roster)])
  }

  function EnterStep(s: State, c: CallerId, room: Room): State {
    if Hit(s, room).Some? then
      s
    else if room in s.inflight && Unfinished(s, s.inflight[room]) then
      s.(waiting := s.waiting[c := Wait(room, s.inflight[room], s.clock, false)])
    else
      s.(tasks := s.tasks + [Task(room, Scheduled, false)],
         inflight := s.inflight[room := |s.tasks|],
         waiting := s.waiting[c := Wait(room, |s.tasks|, s.clock, false)])
  }

  function FirstStepStep(s: State, t: TaskId, clientBuilt: bool): State
    requires t < |s.tasks|
  {
    var task := s.tasks[t];
    if task.cancelRequested then
      s.(tasks := s.tasks[t := task.(phase := Done(Cancelled, false))])
    else if clientBuilt then
      s.(tasks := s.tasks[t := task.(phase := Fetching)])
    else
      Finish(s, t, Returned([]))
  }

  function CloseStep(s: State, t: TaskId, closing: Closing): State
    requires t < |s.tasks| && s.tasks[t].phase.AwaitingClose?
  {
    var task := s.tasks[t];
    var stored := if closing.Closed? && task.phase.listing.Listed?
                  then Remember(s, task.room, task.phase.listing.roster) else s;
    Finish(stored, t, OutcomeOf(task.phase.listing, closing))
  }

  // Cancelling a caller cancels what it awaits: the shared task while it is unfinished,
  // the caller itself afterwards.
  function CancelStep(s: State, c: CallerId): State
    requires c in s.waiting && s.waiting[c].task < |s.tasks|
  {
    var t := s.waiting[c].task;
    if Unfinished(s, t) then
      s.(tasks := s.tasks[t := s.tasks[t].(cancelRequested := true)])
    else
      s.(waiting := s.waiting[c := s.waiting[c].(cancelled := true)])
  }

  function Apply(s: State, e: Event): State
    requires Enabled(s, e)
  {
    match e
    case Pass(later) => s.(clock := later)
    case Enter(c, room) => EnterStep(s, c, room)
    case FirstStep(t, built) => FirstStepStep(s, t, built)
    case ListingEnds(t, l) =>
      s.(tasks := s.tasks[t := s.tasks[t].(phase := AwaitingClose(l), cancelRequested := false)])
    case CloseEnds(t, k) => CloseStep(s, t, k)
    case CancelCaller(c) => CancelStep(s, c)
    case Resume(c) => s.(waiting := s.waiting - {c})
  }

  function Step(s: State, e: Event): State {
    if Enabled(s, e) then Apply(s, e) else s
  }

  // The state after any sequence of events whatever; an event that cannot happen is skipped,
  // so every reachable state is Run(events) for some events.
  function Run(events: seq<Event>): State {
    if |events| == 0 then Initial else Step(Run(events[..|events| - 1]), events[|events| - 1])
  }

  // ---- Invariants ----

  // Every unfinished task is the one its room's table entry names.
  ghost predicate Registered(s: State, t: TaskId) {
    Unfinished(s, t) ==> s.tasks[t].room in s.inflight && s.inflight[s.tasks[t].room] == t
  }

  // A table entry names a task of its room; if that task is done, it was cancelled before
  // its first step.
  ghost predicate EntryGood(s: State, r: Room) {
    r in s.inflight ==>
      && s.inflight[r] < |s.tasks|
      && s.tasks[s.inflight[r]].room == r
      && (s.tasks[s.inflight[r]].phase.Done? ==> s.tasks[s.inflight[r]].phase == Done(Cancelled, false))
  }

  ghost predicate WaitGood(s: State, c: CallerId) {
    c in s.waiting ==>
      s.waiting[c].task < |s.tasks| && s.tasks[s.waiting[c].task].room == s.waiting[c].room
  }

  ghost predicate TableHolds(s: State) {
    && (forall t: TaskId :: Registered(s, t))
    && (forall r :: EntryGood(s, r))
    && (forall c: CallerId :: WaitGood(s, c))
  }

  ghost predicate Fetched(s: State, r: Room, roster: Roster, at: real) {
    Fetch(r, at, roster) in s.fetches
  }

  // A stored roster is that of a completed fetch of the room, and expires one TTL after it.
  ghost predicate StoredGood(s: State, r: Room) {
    r in s.cache ==> Fetched(s, r, s.cache[r].roster, s.cache[r].expires - PARTICIPANTS_TTL)
  }

  // No completed fetch is newer than the stored one, nor than the clock.
  ghost predicate FetchGood(s: State, f: Fetch) {
    && f.at <= s.clock
    && f.room in s.cache
    && f.at + PARTICIPANTS_TTL <= s.cache[f.room].expires
  }

  // A task that has still to finish found nothing fresh, and so finds nothing fresh later.
  ghost predicate StaleFor(s: State, t: TaskId) {
    Unfinished(s, t) && s.tasks[t].room in s.cache ==> s.cache[s.tasks[t].room].expires <= s.clock
  }

  ghost predicate CacheHolds(s: State) {
    && (forall r :: StoredGood(s, r))
    && (forall i :: 0 <= i < |s.fetches| ==> FetchGood(s, s.fetches[i]))
    && (forall t: TaskId :: StaleFor(s, t))
  }

  ghost predicate Spaced(fetches: seq<Fetch>) {
    forall i, j :: 0 <= i < j < |fetches| && fetches[i].room == fetches[j].room
      ==> fetches[i].at + PARTICIPANTS_TTL <= fetches[j].at
  }

  ghost predicate ResultGood(s: State, t: TaskId) {
    t < |s.tasks| && s.tasks[t].phase.Done? && s.tasks[t].phase.outcome.Returned? ==>
      || s.tasks[t].phase.outcome.roster == []
      || exists at :: Fetched(s, s.tasks[t].room, s.tasks[t].phase.outcome.roster, at)
  }

  ghost predicate Inv(s: State) {
    TableHolds(s) && CacheHolds(s) && Spaced(s.fetches) && forall t: TaskId :: ResultGood(s, t)
  }

  // ---- Each event keeps the table ----

  // An unfinished task that stays unfinished stays registered: a clean-up removes the entry
  // of its own room, and that entry names the task cleaning up.
  lemma TableEntryKept(s: State, e: Event, t: TaskId)
    requires TableHolds(s) && t < |s.tasks| && Unfinished(Step(s, e), t)
    ensures Registered(Step(s, e), t)
  {
    assert Registered(s, t);
    assert Unfinished(s, t);
    if Enabled(s, e) && (e.FirstStep? || e.CloseEnds?) {
      assert Registered(s, e.task);
    }
  }

  lemma RegisteredKept(s: State, e: Event, t: TaskId)
    requires TableHolds(s)
    ensures Registered(Step(s, e), t)
  {
    assert Registered(s, t);
    if Unfinished(Step(s, e), t) && t < |s.tasks| { TableEntryKept(s, e, t); }
  }

  lemma EntryKept(s: State, e: Event, r: Room)
    requires TableHolds(s)
    ensures EntryGood(Step(s, e), r)
  {
    assert EntryGood(s, r);
  }

  lemma WaitKept(s: State, e: Event, c: CallerId)
    requires TableHolds(s)
    ensures WaitGood(Step(s, e), c)
  {
    assert WaitGood(s, c);
    if e.Enter? { assert EntryGood(s, e.room); }
  }

  lemma TableKept(s: State, e: Event)
    requires TableHolds(s)
    ensures TableHolds(Step(s, e))
  {
    hide Step, Registered, EntryGood, WaitGood;
    forall t: TaskId ensures Registered(Step(s, e), t) { RegisteredKept(s, e, t); }
    forall r ensures EntryGood(Step(s, e), r) { EntryKept(s, e, r); }
    forall c: CallerId ensures WaitGood(Step(s, e), c) { WaitKept(s, e, c); }
  }

  // ---- Each event keeps the cache and its history ----

  lemma CacheKept(s: State, e: Event)
    requires Inv(s)
    ensures CacheHolds(Step(s, e)) && Spaced(Step(s, e).fetches)
  {
    var s' := Step(s, e);
    if Enabled(s, e) && e.CloseEnds? {
      CloseKeepsCache(s, e.task, e.closing);
    } else {
      OthersLeaveTheCache(s, e);
      hide Spaced, Registered, EntryGood, WaitGood, ResultGood;
      forall r ensures StoredGood(s', r) {
        assert StoredGood(s, r);
      }
      forall i | 0 <= i < |s'.fetches| ensures FetchGood(s', s'.fetches[i]) {
        assert FetchGood(s, s.fetches[i]);
      }
      forall t: TaskId ensures StaleFor(s', t) { StaleKept(s, e, t); }
    }
  }

  lemma OthersLeaveTheCache(s: State, e: Event)
    requires !(Enabled(s, e) && e.CloseEnds?)
    ensures Step(s, e).fetches == s.fetches && Step(s, e).cache == s.cache && s.clock <= Step(s, e).clock
  {
  }

  lemma StaleKept(s: State, e: Event, t: TaskId)
    requires StaleFor(s, t) && !(Enabled(s, e) && e.CloseEnds?)
    ensures StaleFor(Step(s, e), t)
  {
  }

  lemma CloseKeepsCache(s: State, t: TaskId, k: Closing)
    requires Inv(s) && Enabled(s, CloseEnds(t, k))
    ensures CacheHolds(CloseStep(s, t, k)) && Spaced(CloseStep(s, t, k).fetches)
  {
    var s' := CloseStep(s, t, k);
    var room := s.tasks[t].room;
    assert StaleFor(s, t) && Unfinished(s, t) && Registered(s, t);
    forall r ensures StoredGood(s', r) {
      assert StoredGood(s, r);
      if s'.cache != s.cache && r == room {
        assert s'.fetches[|s.fetches|] == Fetch(room, s.clock, s'.cache[r].roster);
      }
    }
    forall i | 0 <= i < |s'.fetches| ensures FetchGood(s', s'.fetches[i]) {
      if i < |s.fetches| { assert FetchGood(s, s.fetches[i]); }
    }
    forall u: TaskId ensures StaleFor(s', u) {
      assert StaleFor(s, u) && Registered(s, u);
    }
    forall i, j | 0 <= i < j < |s'.fetches| && s'.fetches[i].room == s'.fetches[j].room
      ensures s'.fetches[i].at + PARTICIPANTS_TTL <= s'.fetches[j].at
    {
      assert FetchGood(s, s.fetches[i]);
    }
  }

  lemma ResultsKept(s: State, e: Event)
    requires Inv(s)
    ensures forall t: TaskId :: ResultGood(Step(s, e), t)
  {
    hide Step, ResultGood, TableHolds, CacheHolds, Spaced;
    forall t: TaskId ensures ResultGood(Step(s, e), t) { ResultKept(s, e, t); }
  }

  lemma FetchedStays(s: State, e: Event, r: Room, roster: Roster, at: real)
    requires Fetched(s, r, roster, at)
    ensures Fetched(Step(s, e), r, roster, at)
  {
    assert s.fetches <= Step(s, e).fetches;
    var i :| 0 <= i < |s.fetches| && s.fetches[i] == Fetch(r, at, roster);
    assert Step(s, e).fetches[i] == s.fetches[i];
  }

  lemma SameTaskSameResult(s: State, e: Event, t: TaskId)
    requires ResultGood(s, t) && t < |s.tasks| && t < |Step(s, e).tasks| && s.tasks[t] == Step(s, e).tasks[t]
    ensures ResultGood(Step(s, e), t)
  {
    hide Step;
    var task := s.tasks[t];
    if task.phase.Done? && task.phase.outcome.Returned? && task.phase.outcome.roster != [] {
      var at :| Fetched(s, task.room, task.phase.outcome.roster, at);
      FetchedStays(s, e, task.room, task.phase.outcome.roster, at);
    }
  }

  // A task whose state changed now is done with a roster only if it has just stored it.
  lemma ChangedTaskResult(s: State, e: Event, t: TaskId)
    requires t < |s.tasks| ==> s.tasks[t] != Step(s, e).tasks[t]
    requires |s.tasks| <= |Step(s, e).tasks|
    ensures ResultGood(Step(s, e), t)
  {
    var s' := Step(s, e);
    if t < |s.tasks| && Enabled(s, e) && e == CloseEnds(t, Closed) && s.tasks[t].phase.listing.Listed? {
      assert s'.fetches[|s.fetches|] == Fetch(s.tasks[t].room, s.clock, s.tasks[t].phase.listing.roster);
      assert Fetched(s', s.tasks[t].room, s.tasks[t].phase.listing.roster, s.clock);
    }
  }

  lemma TasksStay(s: State, e: Event)
    ensures |s.tasks| <= |Step(s, e).tasks|
  {
  }

  lemma ResultKept(s: State, e: Event, t: TaskId)
    requires ResultGood(s, t)
    ensures ResultGood(Step(s, e), t)
  {
    hide Step, ResultGood;
    TasksStay(s, e);
    if t < |s.tasks| && s.tasks[t] == Step(s, e).tasks[t] {
      SameTaskSameResult(s, e, t);
    } else {
      ChangedTaskResult(s, e, t);
    }
  }

  lemma {:induction false} RunKeepsInv(events: seq<Event>)
    ensures Inv(Run(events))
  {
    if |events| > 0 {
      var before := Run(events[..|events| - 1]);
      RunKeepsInv(events[..|events| - 1]);
      TableKept(before, events[|events| - 1]);
      CacheKept(before, events[|events| - 1]);
      ResultsKept(before, events[|events| - 1]);
    }
  }

  // ---- What the protocol is for ----

  // Under any interleaving and any cancellation, a room has at most one unfinished fetch,
  // and that is the one its table entry names: whoever enters now joins it.
  lemma AtMostOneFetchPerRoom(events: seq<Event>, t: TaskId, u: TaskId)
    requires Unfinished(Run(events), t) && Unfinished(Run(events), u)
    requires Run(events).tasks[t].room == Run(events).tasks[u].room
    ensures t == u
    ensures Run(events).tasks[t].room in Run(events).inflight && Run(events).inflight[Run(events).tasks[t].room] == t
  {
    RunKeepsInv(events);
    assert Registered(Run(events), t) && Registered(Run(events), u);
  }

  // An entry leaves the table, by a clean-up or by replacement, only once the task it names
  // is done; in particular a task never removes another task's entry.
  lemma {:induction false} EntryOutlivesNoTask(events: seq<Event>, e: Event, r: Room)
    requires r in Run(events).inflight
    requires r !in Step(Run(events), e).inflight || Step(Run(events), e).inflight[r] != Run(events).inflight[r]
    ensures !Unfinished(Step(Run(events), e), Run(events).inflight[r])
    ensures e.FirstStep? ==> e.task == Run(events).inflight[r]
    ensures e.CloseEnds? ==> e.task == Run(events).inflight[r]
  {
    var s := Run(events);
    RunKeepsInv(events);
    assert EntryGood(s, r);
    if Enabled(s, e) && (e.FirstStep? || e.CloseEnds?) {
      assert Unfinished(s, e.task);
      assert Registered(s, e.task);
    }
  }

  // Why the code asks the entry whether it is done: entries of finished tasks do occur, and
  // they are those of tasks cancelled before their first step, which clean up nothing.
  lemma StaleEntriesNeverRan(events: seq<Event>, r: Room)
    requires r in Run(events).inflight && !Unfinished(Run(events), Run(events).inflight[r])
    ensures Run(events).inflight[r] < |Run(events).tasks|
    ensures Run(events).tasks[Run(events).inflight[r]].phase == Done(Cancelled, false)
  {
    RunKeepsInv(events);
    assert EntryGood(Run(events), r);
  }

  // So a caller that misses the cache always ends up awaiting an unfinished task of its room,
  // the only one, and a new one is created exactly when there was none.
  lemma MissJoinsTheOneFetch(events: seq<Event>, c: CallerId, r: Room)
    requires Enabled(Run(events), Enter(c, r)) && Hit(Run(events), r).None?
    ensures var s := Run(events); var s' := Step(s, Enter(c, r));
            && c in s'.waiting && s'.waiting[c].room == r && !s'.waiting[c].cancelled
            && Unfinished(s', s'.waiting[c].task) && s'.tasks[s'.waiting[c].task].room == r
            && (|s'.tasks| > |s.tasks| <==> forall t: TaskId :: Unfinished(s, t) ==> s.tasks[t].room != r)
  {
    var s := Run(events);
    RunKeepsInv(events);
    assert EntryGood(s, r);
    forall t: TaskId | Unfinished(s, t) && s.tasks[t].room == r
      ensures r in s.inflight && s.inflight[r] == t
    {
      assert Registered(s, t);
    }
  }

  // Cancelling one of two callers that share a fetch not yet begun cancels the other one too:
  // it is handed the cancellation although nobody cancelled it.
  lemma CancellationIsShared(events: seq<Event>, c: CallerId, d: CallerId, built: bool)
    requires var s := Run(events);
             && c in s.waiting && d in s.waiting && c != d
             && s.waiting[c].task == s.waiting[d].task < |s.tasks|
             && s.tasks[s.waiting[c].task].phase.Scheduled?
    ensures var s' := Run(events + [CancelCaller(c), FirstStep(Run(events).waiting[c].task, built)]);
            Enabled(s', Resume(d)) && Received(s', d) == Cancelled
  {
    hide Step;
    var t := Run(events).waiting[c].task;
    var one := events + [CancelCaller(c)];
    var two := events + [CancelCaller(c), FirstStep(t, built)];
    assert one[..|one| - 1] == events && two[..|two| - 1] == one;
    CancelledBeforeItsFirstStep(Run(events), c, d, built);
  }

  lemma CancelledBeforeItsFirstStep(s: State, c: CallerId, d: CallerId, built: bool)
    requires c in s.waiting && d in s.waiting && c != d
    requires s.waiting[c].task == s.waiting[d].task < |s.tasks| && s.tasks[s.waiting[c].task].phase.Scheduled?
    ensures var s' := Step(Step(s, CancelCaller(c)), FirstStep(s.waiting[c].task, built));
            Enabled(s', Resume(d)) && Received(s', d) == Cancelled
  {
  }

  // A hit is the roster of a successful fetch of that very room completed under one TTL ago.
  lemma HitsAreFresh(events: seq<Event>, r: Room)
    requires Hit(Run(events), r).Some?
    ensures exists at :: Fetched(Run(events), r, Hit(Run(events), r).value, at)
                      && at <= Run(events).clock < at + 5.0
  {
    var s := Run(events);
    RunKeepsInv(events);
    assert StoredGood(s, r);
    var at := s.cache[r].expires - PARTICIPANTS_TTL;
    assert Fetched(s, r, s.cache[r].roster, at);
    var i :| 0 <= i < |s.fetches| && s.fetches[i] == Fetch(r, at, s.cache[r].roster);
    assert FetchGood(s, s.fetches[i]);
  }

  // Nothing but a successful listing whose client also closed cleanly is ever stored.
  lemma OnlySuccessIsStored(events: seq<Event>, e: Event)
    requires Step(Run(events), e).cache != Run(events).cache
    ensures e.CloseEnds? && e.closing.Closed? && e.task < |Run(events).tasks|
    ensures Run(events).tasks[e.task].phase.AwaitingClose? && Run(events).tasks[e.task].phase.listing.Listed?
    ensures Hit(Step(Run(events), e), Run(events).tasks[e.task].room)
         == Some(Run(events).tasks[e.task].phase.listing.roster)
  {
  }

  // Successful fetches of one room complete at least one TTL apart ...
  lemma FetchesAreSpaced(events: seq<Event>, i: nat, j: nat)
    requires i < j < |Run(events).fetches|
    requires Run(events).fetches[i].room == Run(events).fetches[j].room
    ensures Run(events).fetches[i].at + 5.0 <= Run(events).fetches[j].at
  {
    RunKeepsInv(events);
  }

  function CountWithin(fetches: seq<Fetch>, r: Room, from: real, to: real): nat {
    if |fetches| == 0 then 0
    else
      var f := fetches[|fetches| - 1];
      CountWithin(fetches[..|fetches| - 1], r, from, to) + (if f.room == r && from <= f.at <= to then 1 else 0)
  }

  lemma {:induction false} SpacedCount(fetches: seq<Fetch>, r: Room, from: real, to: real) returns (last: nat)
    requires Spaced(fetches) && CountWithin(fetches, r, from, to) > 0
    ensures last < |fetches| && fetches[last].room == r && fetches[last].at <= to
    ensures fetches[last].at >= from + PARTICIPANTS_TTL * (CountWithin(fetches, r, from, to) - 1) as real
  {
    var before, f := fetches[..|fetches| - 1], fetches[|fetches| - 1];
    last := |fetches| - 1;
    if CountWithin(before, r, from, to) > 0 {
      var p := SpacedCount(before, r, from, to);
      if !(f.room == r && from <= f.at <= to) { last := p; }
    }
  }

  // ... so in any run a period of length `to - from` sees at most one per TTL, plus one.
  lemma UpstreamLoadIsBounded(events: seq<Event>, r: Room, from: real, to: real)
    requires from <= to
    ensures 5.0 * (CountWithin(Run(events).fetches, r, from, to) - 1) as real <= to - from
  {
    RunKeepsInv(events);
    if CountWithin(Run(events).fetches, r, from, to) > 0 {
      var _ := SpacedCount(Run(events).fetches, r, from, to);
    }
  }

  // ---- The module's dictionaries and the code that updates them ----

  class ParticipantTables {
    var clock: real
    var cache: map<Room, Entry>
    var inflight: map<Room, TaskId>
    var tasks: seq<Task>
    var waiting: map<CallerId, Wait>
    ghost var fetches: seq<Fetch>

    ghost function Snapshot(): State
      reads this
    {
      State(clock, cache, inflight, tasks, waiting, fetches)
    }

    ghost predicate Valid()
      reads this
    {
      Inv(Snapshot())
    }

    constructor ()
      ensures Valid() && Snapshot() == Initial
    {
      clock, cache, inflight, tasks, waiting, fetches := 0.0, map[], map[], [], map[], [];
    }

    // A caller up to its first await: served from the cache, or left awaiting a task.
    method FetchRoomParticipantsCached(c: CallerId, room: Room) returns (hit: Option<Roster>)
      requires Valid() && Enabled(Snapshot(), Enter(c, room))
      modifies this
      ensures Valid() && Snapshot() == Step(old(Snapshot()), Enter(c, room))
      ensures hit == Hit(old(Snapshot()), room)
    {
      TableKept(Snapshot(), Enter(c, room));
      CacheKept(Snapshot(), Enter(c, room));
      ResultsKept(Snapshot(), Enter(c, room));
      var now := clock;
      if room in cache && cache[room].expires > now {
        return Some(cache[room].roster);
      }
      hit := None;
      if room in inflight {
        assert EntryGood(Snapshot(), room);
        var existing := inflight[room];
        if !tasks[existing].phase.Done? {
          waiting := waiting[c := Wait(room, existing, clock, false)];
          return;
        }
      }
      var task := |tasks|;
      tasks := tasks + [Task(room, Scheduled, false)];
      inflight := inflight[room := task];
      waiting := waiting[c := Wait(room, task, clock, false)];
    }

    // The task's body up to its first await, or its cancellation before that.
    method BeginFetch(t: TaskId, clientBuilt: bool)
      requires Valid() && Enabled(Snapshot(), FirstStep(t, clientBuilt))
      modifies this
      ensures Valid() && Snapshot() == Step(old(Snapshot()), FirstStep(t, clientBuilt))
    {
      TableKept(Snapshot(), FirstStep(t, clientBuilt));
      CacheKept(Snapshot(), FirstStep(t, clientBuilt));
      ResultsKept(Snapshot(), FirstStep(t, clientBuilt));
      if tasks[t].cancelRequested {
        tasks := tasks[t := tasks[t].(phase := Done(Cancelled, false))];
      } else if clientBuilt {
        tasks := tasks[t := tasks[t].(phase := Fetching)];
      } else {
        inflight := inflight - {tasks[t].room};
        tasks := tasks[t := tasks[t].(phase := Done(Returned([]), true))];
      }
    }

    // The rest of the body once the client is closed: store a success, swallow a failure,
    // let a cancellation through, and in every case drop the room's entry.
    method EndFetch(t: TaskId, closing: Closing) returns (outcome: Outcome)
      requires Valid() && Enabled(Snapshot(), CloseEnds(t, closing))
      modifies this
      ensures Valid() && Snapshot() == Step(old(Snapshot()), CloseEnds(t, closing))
      ensures tasks[t].phase == Done(outcome, true)
      ensures var listing := old(tasks[t].phase.listing);
              && (closing.Closed? && listing.Listed? ==>
                    outcome == Returned(listing.roster) && cache == old(cache)[tasks[t].room := Entry(clock + 5.0, listing.roster)])
              && (closing.CloseFailed? || (closing.Closed? && listing.ListFailed?) ==> outcome == Returned([]) && cache == old(cache))
              && (closing.CloseInterrupted? || (closing.Closed? && listing.ListInterrupted?) ==> outcome == Cancelled && cache == old(cache))
    {
      TableKept(Snapshot(), CloseEnds(t, closing));
      CacheKept(Snapshot(), CloseEnds(t, closing));
      ResultsKept(Snapshot(), CloseEnds(t, closing));
      hide Inv;
      var room, listing := tasks[t].room, tasks[t].phase.listing;
      if closing.CloseInterrupted? || (closing.Closed? && listing.ListInterrupted?) {
        outcome := Cancelled;
      } else if closing.Closed? && listing.Listed? {
        cache := cache[room := Entry(clock + PARTICIPANTS_TTL, listing.roster)];
        fetches := fetches + [Fetch(room, clock, listing.roster)];
        outcome := Returned(listing.roster);
      } else {
        outcome := Returned([]);
      }
      inflight := inflight - {room};
      tasks := tasks[t := tasks[t].(phase := Done(outcome, true))];
    }
  }
}
