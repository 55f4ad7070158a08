// The uses of one invitation. A registration takes a slot before the homeserver answers, and
// keeps it or gives it back afterwards; a redemption reads the count, awaits other calls, and
// writes. In between, anything else may happen.
module InviteSlots {
  import opened Common

  type RegistrationId = nat
  type RedemptionId = nat

  datatype Invite = Invite(useCount: int, maxUses: int, permanent: bool, expires: real)

  // A registration under way: it has read the row, and then reserved a slot unless the row it
  // had read was permanent.
  datatype Progress = Loaded(permanent: bool) | Reserved | Uncounted

  // What a redemption under way has read.
  datatype Read = Read(count: int, permanent: bool)

  // `consumed` counts the uses by people who came in. History only.
  datatype State = State(
    invite: Invite, clock: real, pending: map<RegistrationId, Progress>, redeeming: map<RedemptionId, Read>, consumed: nat)

  datatype Reply = Fine | Refused

  datatype Action =
    | Pass(later: real)
    | Load(reg: RegistrationId)
    | Reserve(reg: RegistrationId)
    | Complete(reg: RegistrationId)
    | Release(reg: RegistrationId)
    | BeginRedeem(id: RedemptionId, newMember: bool)
    | FinishRedeem(id: RedemptionId)
    | Update(maxUses: Option<int>, permanent: Option<bool>, hours: Option<real>)

  predicate IsValid(i: Invite, now: real) {
    i.permanent || (i.useCount < i.maxUses && now < i.expires)
  }

  function Without(pending: map<RegistrationId, Progress>, reg: RegistrationId): map<RegistrationId, Progress> {
    pending - {reg}
  }

  // The row is read and found valid, or the request is refused.
  function LoadStep(s: State, reg: RegistrationId): (State, Reply) {
    if reg in s.pending || !IsValid(s.invite, s.clock) then (s, Refused)
    else (s.(pending := s.pending[reg := Loaded(s.invite.permanent)]), Fine)
  }

  // One update statement, guarded in the database.
  function ReserveStep(s: State, reg: RegistrationId): (State, Reply) {
    if reg !in s.pending || !s.pending[reg].Loaded? then (s, Refused)
    else if s.pending[reg].permanent then (s.(pending := s.pending[reg := Uncounted]), Fine)
    else if s.invite.useCount < s.invite.maxUses then
      (s.(invite := s.invite.(useCount := s.invite.useCount + 1), pending := s.pending[reg := Reserved]), Fine)
    else (s.(pending := Without(s.pending, reg)), Refused)
  }

  function CompleteStep(s: State, reg: RegistrationId): (State, Reply) {
    if reg !in s.pending || s.pending[reg].Loaded? then (s, Refused)
    else (s.(pending := Without(s.pending, reg), consumed := s.consumed + if s.pending[reg].Reserved? then 1 else 0), Fine)
  }

  function ReleaseStep(s: State, reg: RegistrationId): (State, Reply) {
    if reg !in s.pending || s.pending[reg].Loaded? then (s, Refused)
    else
      (s.(pending := Without(s.pending, reg),
          invite := if s.pending[reg].Reserved? then s.invite.(useCount := s.invite.useCount - 1) else s.invite), Fine)
  }

  // The row is read and tested; a member already goes no further.
  function BeginRedeemStep(s: State, id: RedemptionId, newMember: bool): (State, Reply) {
    if id in s.redeeming || !IsValid(s.invite, s.clock) then (s, Refused)
    else if !newMember then (s, Fine)
    else (s.(redeeming := s.redeeming[id := Read(s.invite.useCount, s.invite.permanent)]), Fine)
  }

  // The count that is written is the one that was read, plus one.
  function FinishRedeemStep(s: State, id: RedemptionId): (State, Reply) {
    if id !in s.redeeming then (s, Refused)
    else if s.redeeming[id].permanent then (s.(redeeming := s.redeeming - {id}), Fine)
    else
      (s.(redeeming := s.redeeming - {id},
          invite := s.invite.(useCount := s.redeeming[id].count + 1),
          consumed := s.consumed + 1), Fine)
  }

  function UpdateStep(s: State, maxUses: Option<int>, permanent: Option<bool>, hours: Option<real>): (State, Reply) {
    if maxUses.Some? && (maxUses.value < 1 || maxUses.value < s.invite.useCount) then (s, Refused)
    else
      var i := s.invite;
      (s.(invite := Invite(i.useCount,
                           if maxUses.Some? then maxUses.value else i.maxUses,
                           if permanent.Some? then permanent.value else i.permanent,
                           if hours.Some? then s.clock + 3600.0 * hours.value else i.expires)), Fine)
  }

  function Step(s: State, a: Action): (State, Reply) {
    match a
    case Pass(later) => (if later >= s.clock then s.(clock := later) else s, Fine)
    case Load(reg) => LoadStep(s, reg)
    case Reserve(reg) => ReserveStep(s, reg)
    case Complete(reg) => CompleteStep(s, reg)
    case Release(reg) => ReleaseStep(s, reg)
    case BeginRedeem(id, newMember) => BeginRedeemStep(s, id, newMember)
    case FinishRedeem(id) => FinishRedeemStep(s, id)
    case Update(maxUses, permanent, hours) => UpdateStep(s, maxUses, permanent, hours)
  }

  // A new invitation, and any sequence of steps of any number of registrations, redemptions
  // and edits, in any order.
  function Run(first: State, actions: seq<Action>): State {
    if |actions| == 0 then first else Step(Run(first, actions[..|actions| - 1]), actions[|actions| - 1]).0
  }

  predicate New(s: State) {
    s.invite.useCount == 0 && 1 <= s.invite.maxUses && s.pending == map[] && s.redeeming == map[] && s.consumed == 0
  }

  // ---- Conservation ----

  function Holders(pending: map<RegistrationId, Progress>): set<RegistrationId> {
    set r | r in pending && pending[r].Reserved?
  }

  predicate Conserved(s: State) {
    s.invite.useCount == s.consumed + |Holders(s.pending)|
  }

  predicate Inv(s: State) {
    Conserved(s) && 0 <= s.invite.useCount <= s.invite.maxUses
  }

  function Held(pending: map<RegistrationId, Progress>, reg: RegistrationId): nat {
    if reg in pending && pending[reg].Reserved? then 1 else 0
  }

  lemma HoldersWithout(pending: map<RegistrationId, Progress>, reg: RegistrationId)
    ensures |Holders(pending)| == |Holders(Without(pending, reg))| + Held(pending, reg)
  {
    if Held(pending, reg) == 1 {
      assert Holders(pending) == Holders(Without(pending, reg)) + {reg};
    } else {
      assert Holders(pending) == Holders(Without(pending, reg));
    }
  }

  lemma HoldersWith(pending: map<RegistrationId, Progress>, reg: RegistrationId, p: Progress)
    ensures |Holders(pending[reg := p])| == |Holders(Without(pending, reg))| + if p.Reserved? then 1 else 0
  {
    assert Without(pending[reg := p], reg) == Without(pending, reg);
    HoldersWithout(pending[reg := p], reg);
  }

  // How far the count has fallen behind.
  function Drift(s: State): int {
    s.consumed + |Holders(s.pending)| - s.invite.useCount
  }

  predicate Writes(s: State, a: Action) {
    a.FinishRedeem? && a.id in s.redeeming && !s.redeeming[a.id].permanent
  }

  // What one step adds to that: a redemption loses what was counted since it read.
  function Slip(s: State, a: Action): int {
    if Writes(s, a) then s.invite.useCount - s.redeeming[a.id].count else 0
  }

  // A redemption writes in time: nothing has been counted or given back since it read, and
  // the limit still leaves room.
  predicate Timely(s: State, a: Action) {
    Writes(s, a) ==> s.redeeming[a.id].count == s.invite.useCount < s.invite.maxUses
  }

  lemma StepDrifts(s: State, a: Action)
    ensures Drift(Step(s, a).0) == Drift(s) + Slip(s, a)
  {
    hide Holders, Without;
    match a
    case Load(reg) =>
      HoldersWithout(s.pending, reg);
      HoldersWith(s.pending, reg, Loaded(s.invite.permanent));
    case Reserve(reg) =>
      HoldersWithout(s.pending, reg);
      HoldersWith(s.pending, reg, Uncounted);
      HoldersWith(s.pending, reg, Reserved);
    case Complete(reg) => HoldersWithout(s.pending, reg);
    case Release(reg) => HoldersWithout(s.pending, reg);
    case _ =>
  }

  // The exact condition for one step to keep the slots conserved and the count within bounds.
  lemma StepConservesIff(s: State, a: Action)
    requires Inv(s)
    ensures Inv(Step(s, a).0) <==> Timely(s, a)
  {
    StepDrifts(s, a);
    if a.Release? { HoldersAreCounted(s, a.reg); }
    hide Holders, Without;
  }

  lemma HoldersAreCounted(s: State, reg: RegistrationId)
    requires Conserved(s)
    ensures Held(s.pending, reg) <= s.invite.useCount
  {
    HoldersWithout(s.pending, reg);
  }

  ghost predicate AllTimely(first: State, actions: seq<Action>) {
    forall n :: 0 <= n < |actions| ==> Timely(Run(first, actions[..n]), actions[n])
  }

  lemma AllTimelyBefore(first: State, actions: seq<Action>)
    requires |actions| > 0
    ensures AllTimely(first, actions)
       <==> var n := |actions| - 1; AllTimely(first, actions[..n]) && Timely(Run(first, actions[..n]), actions[n])
  {
    hide Timely, Run;
    var n := |actions| - 1;
    var before := actions[..n];
    assert forall i :: 0 <= i < n ==> before[..i] == actions[..i] && before[i] == actions[i];
    if AllTimely(first, before) && Timely(Run(first, before), actions[n]) {
      forall i | 0 <= i < |actions| ensures Timely(Run(first, actions[..i]), actions[i]) {
        if i < n { assert Timely(Run(first, before[..i]), before[i]); }
      }
    }
    if AllTimely(first, actions) {
      forall i | 0 <= i < n ensures Timely(Run(first, before[..i]), before[i]) {
        assert Timely(Run(first, actions[..i]), actions[i]);
      }
    }
  }

  // As long as every redemption writes in time, the use count is the uses consumed plus the
  // slots reserved at the moment, and within its limit; so no more people come in than the
  // limit allows.
  lemma {:induction false} SlotsAreConserved(first: State, actions: seq<Action>)
    requires New(first) && AllTimely(first, actions)
    ensures var s := Run(first, actions);
            && s.invite.useCount == s.consumed + |Holders(s.pending)|
            && 0 <= s.consumed <= s.invite.useCount <= s.invite.maxUses
  {
    if |actions| > 0 {
      AllTimelyBefore(first, actions);
      SlotsAreConserved(first, actions[..|actions| - 1]);
      StepConservesIff(Run(first, actions[..|actions| - 1]), actions[|actions| - 1]);
    } else {
      assert Holders(first.pending) == {};
    }
  }

  // And not otherwise: a run keeps the slots conserved and the count within its bounds all
  // along if and only if every redemption in it writes in time.
  lemma {:induction false} ConservedThroughoutIff(first: State, actions: seq<Action>)
    requires New(first)
    ensures (forall n :: 0 <= n <= |actions| ==> Inv(Run(first, actions[..n]))) <==> AllTimely(first, actions)
  {
    if AllTimely(first, actions) {
      forall n | 0 <= n <= |actions| ensures Inv(Run(first, actions[..n])) {
        forall i | 0 <= i < n ensures Timely(Run(first, actions[..n][..i]), actions[..n][i]) {
          assert actions[..n][..i] == actions[..i];
          assert Timely(Run(first, actions[..i]), actions[i]);
        }
        SlotsAreConserved(first, actions[..n]);
      }
    }
    if forall n :: 0 <= n <= |actions| ==> Inv(Run(first, actions[..n])) {
      forall n | 0 <= n < |actions| ensures Timely(Run(first, actions[..n]), actions[n]) {
        var before, after := actions[..n], actions[..n + 1];
        assert after[..n] == before;
        assert Inv(Run(first, before)) && Inv(Run(first, after));
        StepConservesIff(Run(first, before), actions[n]);
      }
    }
  }

  // What every run loses, in time or not: exactly what was counted between the reads and the
  // writes of its redemptions. What was counted and given back in between cancels out.
  function Slips(first: State, actions: seq<Action>): int {
    if |actions| == 0 then 0
    else var n := |actions| - 1; Slips(first, actions[..n]) + Slip(Run(first, actions[..n]), actions[n])
  }

  lemma {:induction false} DriftIsWhatSlipped(first: State, actions: seq<Action>)
    requires New(first)
    ensures Drift(Run(first, actions)) == Slips(first, actions)
    ensures Conserved(Run(first, actions)) <==> Slips(first, actions) == 0
  {
    if |actions| > 0 {
      DriftIsWhatSlipped(first, actions[..|actions| - 1]);
      StepDrifts(Run(first, actions[..|actions| - 1]), actions[|actions| - 1]);
    } else {
      assert Holders(first.pending) == {};
    }
  }

  // No step of the run changes the count or the limit, or this redemption.
  predicate Quiet(first: State, actions: seq<Action>, id: RedemptionId) {
    |actions| == 0 ||
    var n := |actions| - 1;
    var before, after := Run(first, actions[..n]), Run(first, actions);
    && Quiet(first, actions[..n], id)
    && after.invite.useCount == before.invite.useCount && after.invite.maxUses == before.invite.maxUses
    && !(actions[n].FinishRedeem? && actions[n].id == id)
  }

  // A redemption between whose read and write nothing touches the count or the limit is in
  // time, whatever else happens.
  lemma {:induction false} UndisturbedRedeemIsTimely(s: State, id: RedemptionId, actions: seq<Action>)
    requires id !in s.redeeming && IsValid(s.invite, s.clock)
    requires Quiet(Step(s, BeginRedeem(id, true)).0, actions, id)
    ensures Timely(Run(Step(s, BeginRedeem(id, true)).0, actions), FinishRedeem(id))
  {
    QuietKeepsRead(Step(s, BeginRedeem(id, true)).0, actions, id);
  }

  lemma {:induction false} QuietKeepsRead(first: State, actions: seq<Action>, id: RedemptionId)
    requires id in first.redeeming && Quiet(first, actions, id)
    ensures var s := Run(first, actions);
            && id in s.redeeming && s.redeeming[id] == first.redeeming[id]
            && s.invite.useCount == first.invite.useCount && s.invite.maxUses == first.invite.maxUses
  {
    if |actions| > 0 {
      QuietKeepsRead(first, actions[..|actions| - 1], id);
    }
  }

  // One state is like another, but that a registration holds a slot in it.
  predicate Holding(r: State, s: State, reg: RegistrationId) {
    && r.invite == s.invite.(useCount := s.invite.useCount + 1) && r.clock == s.clock
    && reg in r.pending && r.pending[reg] == Reserved
  }

  predicate Edits(a: Action) {
    a.Pass? || a.Update?
  }

  // Every step of the run is an edit or the passing of time, and accepted.
  predicate AcceptedEdits(first: State, actions: seq<Action>) {
    |actions| == 0 ||
    var n := |actions| - 1;
    AcceptedEdits(first, actions[..n]) && Edits(actions[n]) && Step(Run(first, actions[..n]), actions[n]).1.Fine?
  }

  lemma HoldingStays(r: State, s: State, reg: RegistrationId, a: Action)
    requires Holding(r, s, reg) && Edits(a) && Step(r, a).1.Fine?
    ensures Holding(Step(r, a).0, Step(s, a).0, reg)
  {
  }

  lemma {:induction false} HoldingStaysOverRuns(r: State, s: State, reg: RegistrationId, actions: seq<Action>)
    requires Holding(r, s, reg) && AcceptedEdits(r, actions)
    ensures Holding(Run(r, actions), Run(s, actions), reg)
  {
    if |actions| > 0 {
      var n := |actions| - 1;
      HoldingStaysOverRuns(r, s, reg, actions[..n]);
      HoldingStays(Run(r, actions[..n]), Run(s, actions[..n]), reg, actions[n]);
    }
  }

  // Whatever edits are made to the row between a reservation and its release, the release undoes
  // exactly the reservation: the row is as if neither had taken place.
  lemma ReleaseUndoesReserve(s: State, reg: RegistrationId, actions: seq<Action>)
    requires reg in s.pending && s.pending[reg] == Loaded(false) && s.invite.useCount < s.invite.maxUses
    requires AcceptedEdits(Step(s, Reserve(reg)).0, actions)
    ensures Step(Run(Step(s, Reserve(reg)).0, actions), Release(reg)).0.invite == Run(s, actions).invite
  {
    HoldingStaysOverRuns(Step(s, Reserve(reg)).0, s, reg, actions);
  }

  // ---- Who gets in, and what it costs ----

  // Somebody gets started, to register or to redeem, exactly on an invitation that is
  // permanent, or has uses left and has not expired.
  lemma StartsIff(s: State, a: Action)
    ensures Step(s, a).0.pending.Keys > s.pending.Keys || Step(s, a).0.redeeming.Keys > s.redeeming.Keys
       <==> && ((a.Load? && a.reg !in s.pending) || (a.BeginRedeem? && a.id !in s.redeeming && a.newMember))
            && (s.invite.permanent || (s.invite.useCount < s.invite.maxUses && s.clock < s.invite.expires))
    ensures Step(s, a).0.pending.Keys > s.pending.Keys ==> Step(s, a).0.pending == s.pending[a.reg := Loaded(s.invite.permanent)]
    ensures Step(s, a).0.redeeming.Keys > s.redeeming.Keys ==>
              Step(s, a).0.redeeming == s.redeeming[a.id := Read(s.invite.useCount, s.invite.permanent)]
  {
  }

  // An expired invitation starts nobody, over any run, until it is edited; those already under
  // way may finish.
  lemma {:induction false} ExpiredStartsNobody(first: State, actions: seq<Action>)
    requires !first.invite.permanent && first.invite.expires <= first.clock
    requires forall i :: 0 <= i < |actions| ==> !actions[i].Update?
    ensures var s := Run(first, actions);
            && s.pending.Keys <= first.pending.Keys && s.redeeming.Keys <= first.redeeming.Keys
            && !s.invite.permanent && s.invite.expires == first.invite.expires && s.invite.maxUses == first.invite.maxUses
            && first.clock <= s.clock
  {
    if |actions| > 0 {
      ExpiredStartsNobody(first, actions[..|actions| - 1]);
    }
  }

  // How a registration under way moves on. One that has read a permanent row is never counted;
  // any other takes a use of the invitation, or is turned away when there is none left.
  lemma ProgressIs(s: State, a: Action, reg: RegistrationId)
    requires reg in s.pending
    ensures var before, after := s.pending[reg], Step(s, a).0.pending;
            && (reg in after && after[reg] == before <==>
                  || !(a.Reserve? || a.Complete? || a.Release?)
                  || a.reg != reg
                  || (a.Reserve? && !before.Loaded?)
                  || (!a.Reserve? && before.Loaded?))
            && (reg in after && after[reg] != before <==>
                  a.Reserve? && a.reg == reg && before.Loaded? && (before.permanent || s.invite.useCount < s.invite.maxUses))
            && (reg in after && after[reg] != before ==> after[reg] == if before.permanent then Uncounted else Reserved)
  {
  }

  // What each step does to the count, and to how many have come in.
  lemma CountMoves(s: State, a: Action)
    ensures Step(s, a).0.invite.useCount - s.invite.useCount
         == if a.Reserve? && a.reg in s.pending && s.pending[a.reg] == Loaded(false) && s.invite.useCount < s.invite.maxUses then 1
            else if a.Release? && a.reg in s.pending && s.pending[a.reg] == Reserved then -1
            else if Writes(s, a) then s.redeeming[a.id].count + 1 - s.invite.useCount
            else 0
    ensures Step(s, a).0.consumed - s.consumed
         == if (a.Complete? && a.reg in s.pending && s.pending[a.reg] == Reserved) || Writes(s, a) then 1 else 0
  {
  }

  // An edit is taken exactly if it leaves the limit at least 1 and at least what is used; it
  // sets what it names, an expiry counting in hours from now, and nothing else ever does.
  lemma EditsAre(s: State, a: Action)
    ensures var i, j := s.invite, Step(s, a).0.invite;
            var taken := a.Update? && (a.maxUses.Some? ==> 1 <= a.maxUses.value && i.useCount <= a.maxUses.value);
            && (a.Update? ==> (Step(s, a).1.Fine? <==> taken))
            && j.maxUses == (if taken && a.maxUses.Some? then a.maxUses.value else i.maxUses)
            && j.permanent == (if taken && a.permanent.Some? then a.permanent.value else i.permanent)
            && j.expires == (if taken && a.hours.Some? then s.clock + 3600.0 * a.hours.value else i.expires)
  {
  }

  // ---- Redemptions out of time ----

  // One write conserves the slots exactly when the count is still the one it read.
  lemma LateRedeemConservesIff(s: State, id: RedemptionId)
    requires Conserved(s) && Writes(s, FinishRedeem(id))
    ensures Conserved(Step(s, FinishRedeem(id)).0) <==> s.redeeming[id].count == s.invite.useCount
  {
    StepDrifts(s, FinishRedeem(id));
    hide Step, Holders;
  }

  // Two people come in on an invitation with one use, and it counts one.
  lemma OverlappingRedeemsLoseAUse(first: State)
    requires New(first) && first.invite.maxUses == 1 && !first.invite.permanent && first.clock < first.invite.expires
    ensures var s := Run(first, [] + [BeginRedeem(1, true)] + [BeginRedeem(2, true)] + [FinishRedeem(1)] + [FinishRedeem(2)]);
            s.consumed == 2 && s.invite.maxUses == 1 && s.invite.useCount == 1 && !Conserved(s)
  {
    var a1, a2, a3, a4 := BeginRedeem(1, true), BeginRedeem(2, true), FinishRedeem(1), FinishRedeem(2);
    OneMoreStep(first, [], a1);
    OneMoreStep(first, [] + [a1], a2);
    OneMoreStep(first, [] + [a1] + [a2], a3);
    OneMoreStep(first, [] + [a1] + [a2] + [a3], a4);
  }

  // What was counted and given back in between does no harm: it is the count that matters.
  lemma ChangesThatCancelAreHarmless(first: State)
    requires New(first) && !first.invite.permanent && first.clock < first.invite.expires
    ensures var s := Run(first, [] + [Load(1)] + [BeginRedeem(1, true)] + [Reserve(1)] + [Release(1)] + [FinishRedeem(1)]);
            s.consumed == 1 && Conserved(s)
  {
    var a1, a2, a3, a4, a5 := Load(1), BeginRedeem(1, true), Reserve(1), Release(1), FinishRedeem(1);
    OneMoreStep(first, [], a1);
    OneMoreStep(first, [] + [a1], a2);
    OneMoreStep(first, [] + [a1] + [a2], a3);
    OneMoreStep(first, [] + [a1] + [a2] + [a3], a4);
    OneMoreStep(first, [] + [a1] + [a2] + [a3] + [a4], a5);
    assert Holders(Run(first, [] + [a1] + [a2] + [a3] + [a4] + [a5]).pending) == {};
  }

  lemma OneMoreStep(first: State, actions: seq<Action>, a: Action)
    ensures Run(first, actions + [a]) == Step(Run(first, actions), a).0
  {
    assert (actions + [a])[..|actions|] == actions;
  }

  // ---- The row ----

  class InviteToken {
    var useCount: int
    var maxUses: int
    var permanent: bool
    var expires: real
    ghost var clock: real
    ghost var pending: map<RegistrationId, Progress>
    ghost var redeeming: map<RedemptionId, Read>
    ghost var consumed: nat

    ghost function Now(): State
      reads this
    {
      State(Invite(useCount, maxUses, permanent, expires), clock, pending, redeeming, consumed)
    }

    // The count is the uses consumed plus the slots reserved, within its limit.
    ghost predicate Valid()
      reads this
    {
      Inv(Now())
    }

    constructor (maxUses: int, permanent: bool, hours: real, now: real)
      requires 1 <= maxUses
      ensures Valid() && New(Now()) && clock == now
      ensures this.maxUses == maxUses && this.permanent == permanent && expires == now + 3600.0 * hours
    {
      useCount, this.maxUses, this.permanent, expires := 0, maxUses, permanent, now + 3600.0 * hours;
      clock, pending, redeeming, consumed := now, map[], map[], 0;
    }

    // Reads the row; `wasPermanent` is what the registration goes by from here on.
    method LoadValid(reg: RegistrationId, now: real) returns (ok: bool, wasPermanent: bool)
      requires Valid() && reg !in pending && clock <= now
      modifies this`clock, this`pending
      ensures Valid() && Now() == Step(Step(old(Now()), Pass(now)).0, Load(reg)).0
      ensures ok == IsValid(old(Now()).invite, now) && (ok ==> pending[reg] == Loaded(wasPermanent))
    {
      StepConservesIff(Now(), Pass(now));
      StepConservesIff(Step(Now(), Pass(now)).0, Load(reg));
      hide Inv;
      clock := now;
      ok, wasPermanent := permanent || (useCount < maxUses && now < expires), permanent;
      if ok {
        pending := pending[reg := Loaded(wasPermanent)];
      }
    }

    method ReserveSlot(reg: RegistrationId, wasPermanent: bool) returns (ok: bool)
      requires Valid() && reg in pending && pending[reg] == Loaded(wasPermanent)
      modifies this
      ensures Valid() && Now() == Step(old(Now()), Reserve(reg)).0
      ensures ok == Step(old(Now()), Reserve(reg)).1.Fine?
    {
      StepConservesIff(Now(), Reserve(reg));
      hide Inv;
      ok := true;
      if wasPermanent {
        pending := pending[reg := Uncounted];
      } else if useCount < maxUses {
        useCount := useCount + 1;
        pending := pending[reg := Reserved];
      } else {
        ok := false;
        pending := Without(pending, reg);
      }
    }

    // The homeserver created the account.
    method Registered(reg: RegistrationId)
      requires Valid() && reg in pending && !pending[reg].Loaded?
      modifies this`pending, this`consumed
      ensures Valid() && Now() == Step(old(Now()), Complete(reg)).0
    {
      StepConservesIff(Now(), Complete(reg));
      hide Inv;
      consumed := consumed + if pending[reg].Reserved? then 1 else 0;
      pending := Without(pending, reg);
    }

    // It did not: a slot that was taken is given back.
    method RegistrationFailed(reg: RegistrationId, wasPermanent: bool)
      requires Valid() && reg in pending && pending[reg] == if wasPermanent then Uncounted else Reserved
      modifies this
      ensures Valid() && Now() == Step(old(Now()), Release(reg)).0
    {
      StepConservesIff(Now(), Release(reg));
      hide Inv;
      if !wasPermanent {
        useCount := useCount - 1;
      }
      pending := Without(pending, reg);
    }

    // Reads the row; `countRead` and `wasPermanent` are what the redemption goes by.
    method BeginRedemption(id: RedemptionId, newMember: bool, now: real) returns (ok: bool, countRead: int, wasPermanent: bool)
      requires Valid() && id !in redeeming && clock <= now
      modifies this`clock, this`redeeming
      ensures Valid() && Now() == Step(Step(old(Now()), Pass(now)).0, BeginRedeem(id, newMember)).0
      ensures ok == IsValid(old(Now()).invite, now)
      ensures ok && newMember ==> id in redeeming && redeeming[id] == Read(countRead, wasPermanent)
    {
      StepConservesIff(Now(), Pass(now));
      StepConservesIff(Step(Now(), Pass(now)).0, BeginRedeem(id, newMember));
      hide Inv;
      clock := now;
      ok, countRead, wasPermanent := permanent || (useCount < maxUses && now < expires), useCount, permanent;
      if ok && newMember {
        redeeming := redeeming[id := Read(countRead, wasPermanent)];
      }
    }

    // Writes the count it read, plus one. The row stays sound exactly if that is in time.
    method FinishRedemption(id: RedemptionId, countRead: int, wasPermanent: bool)
      requires Valid() && id in redeeming && redeeming[id] == Read(countRead, wasPermanent)
      modifies this
      ensures Now() == Step(old(Now()), FinishRedeem(id)).0
      ensures Valid() <==> old(Timely(Now(), FinishRedeem(id)))
    {
      StepConservesIff(Now(), FinishRedeem(id));
      hide Inv;
      if !wasPermanent {
        useCount := countRead + 1;
        consumed := consumed + 1;
      }
      redeeming := redeeming - {id};
    }

    // With no await in between, it always is.
    method RedeemAtomically(id: RedemptionId, newMember: bool, now: real) returns (ok: bool)
      requires Valid() && id !in redeeming && clock <= now
      modifies this
      ensures Valid() && ok == IsValid(old(Now()).invite, now)
      ensures consumed == old(consumed) + if ok && newMember && !permanent then 1 else 0
      ensures useCount == old(useCount) + if ok && newMember && !permanent then 1 else 0
    {
      var countRead, wasPermanent;
      ok, countRead, wasPermanent := BeginRedemption(id, newMember, now);
      if ok && newMember {
        FinishRedemption(id, countRead, wasPermanent);
      }
    }

    method UpdateInvite(newMax: Option<int>, newPermanent: Option<bool>, hours: Option<real>, now: real) returns (ok: bool)
      requires Valid() && clock <= now
      modifies this
      ensures Valid() && (Now(), if ok then Fine else Refused) == Step(Step(old(Now()), Pass(now)).0, Update(newMax, newPermanent, hours))
    {
      StepConservesIff(Now(), Pass(now));
      StepConservesIff(Step(Now(), Pass(now)).0, Update(newMax, newPermanent, hours));
      hide Inv;
      clock := now;
      if newMax.Some? {
        if newMax.value < 1 || newMax.value < useCount {
          return false;
        }
        maxUses := newMax.value;
      }
      if newPermanent.Some? {
        permanent := newPermanent.value;
      }
      if hours.Some? {
        expires := now + 3600.0 * hours.value;
      }
      ok := true;
    }
  }
}
