// Exactly what makes a row, a role, a right, a ban or a place come and go, over all requests.
module MembershipChanges {
  import opened Common
  import opened Membership
  import opened Ownership

  // ---- Rows ----

  predicate HasRole(s: State, server: ServerId, user: UserId, roles: set<Role>) {
    (server, user) in s.members && s.members[(server, user)].role in roles
  }

  predicate RemintCompletes(s: State, a: Action)
    requires a.Remint?
  {
    && a.server in s.servers && s.servers[a.server].owner == a.caller && a.newOwner != a.caller && !a.encrypted
    && a.newId != EVERYWHERE && a.newId !in s.servers && !IsMember(s, a.newId, a.newOwner)
    && forall k :: k in s.members && k.0 == a.server ==> !IsMember(s, a.newId, k.1)
  }

  // The guards under which a request lets a user in who has no row.
  predicate LetsIn(s: State, a: Action, server: ServerId, user: UserId) {
    match a
    case SeedLobby(newId, botReady, _) =>
      server == newId != EVERYWHERE && user == BOT && !s.marks.seeded && botReady && newId !in s.servers
    case Create(u, newId, _) => server == newId != EVERYWHERE && user == u && newId !in s.servers
    case Register(u, _, invitedTo) => user == u && Completes(s, a) && (s.lobby == Some(server) || invitedTo == Some(server))
    case ListServers(u, all) => user == u && s.lobby == Some(server) && all
    case Join(u, place) => user == u && server == place && place in s.servers && s.servers[place].isPublic && !IsBanned(s, place, u)
    case Redeem(u, place, valid) => user == u && server == place && place in s.servers && valid && !IsBanned(s, place, u)
    case AcceptDirect(u, place) => user == u && server == place && (place, u) in s.offers
    case Remint(_, place, newOwner, _, newId) =>
      server == newId && RemintCompletes(s, a) && (user == newOwner || IsMember(s, place, user))
    case _ => false
  }

  lemma RemintCompletesIff(s: State, a: Action)
    requires a.Remint?
    ensures RemintCompletes(s, a) <==> Step(s, a).1.Done?
  {
    var rows := Inherited(s, a.server, a.newOwner, a.newId);
    InheritedRows(s, a.server, a.newOwner, a.newId);
    hide Inherited;
    if RemintCompletes(s, a) {
      forall k | k in rows ensures k !in s.members {
        if k.1 != a.newOwner { assert (a.newId, k.1) in rows && IsMember(s, a.server, k.1); }
      }
    }
    if rows.Keys !! s.members.Keys {
      assert (a.newId, a.newOwner) in rows.Keys;
      forall k | k in s.members && k.0 == a.server ensures !IsMember(s, a.newId, k.1) {
        assert (a.newId, k.1) in rows.Keys;
      }
    }
  }

  lemma RemintLetsIn(s: State, a: Action, server: ServerId, user: UserId)
    requires a.Remint? && !IsMember(s, server, user)
    ensures IsMember(Step(s, a).0, server, user) <==> LetsIn(s, a, server, user)
  {
    RemintCompletesIff(s, a);
    InheritedRows(s, a.server, a.newOwner, a.newId);
    hide Inherited, RemintCompletes;
  }

  lemma RegisterLetsIn(s: State, a: Action, server: ServerId, user: UserId)
    requires a.Register? && !IsMember(s, server, user)
    ensures IsMember(Step(s, a).0, server, user) <==> LetsIn(s, a, server, user)
  {
    if s.lobby.Some? { LobbyRows(s, a.user, server, user); }
    hide JoinLobby, RecentKicks, Inherited;
  }

  lemma LobbyRows(s: State, newcomer: UserId, server: ServerId, user: UserId)
    requires s.lobby.Some?
    ensures IsMember(JoinLobby(s, newcomer, Promotes(s)), server, user)
       <==> IsMember(s, server, user) || (s.lobby == Some(server) && user == newcomer)
  {
  }

  lemma OthersLetIn(s: State, a: Action, server: ServerId, user: UserId)
    requires !a.Remint? && !a.Register? && !IsMember(s, server, user)
    ensures IsMember(Step(s, a).0, server, user) <==> LetsIn(s, a, server, user)
  {
    hide RecentKicks, Inherited, JoinLobby;
  }

  // Somebody becomes a member exactly under these guards.
  lemma BecomesMemberIff(s: State, a: Action, server: ServerId, user: UserId)
    requires !IsMember(s, server, user)
    ensures IsMember(Step(s, a).0, server, user) <==> LetsIn(s, a, server, user)
  {
    hide Step, LetsIn;
    if a.Remint? { RemintLetsIn(s, a, server, user); }
    else if a.Register? { RegisterLetsIn(s, a, server, user); }
    else { OthersLetIn(s, a, server, user); }
  }

  // The registration that takes over the lobby, which no reachable state allows.
  predicate TakesOver(s: State, a: Action, server: ServerId) {
    && a.Register? && JoinsLobby(s, a) && s.lobby == Some(server)
    && s.marks == Marks(false, false, false) && server in s.servers && s.servers[server].owner == BOT
  }

  // The row somebody gets who had none, over all requests: whoever a place is made for owns
  // it; a re-mint carries rows over, an owner's as an admin's; and everybody else who comes
  // in, by whatever way, is a plain member with no right.
  lemma NewRowIs(s: State, a: Action, server: ServerId, user: UserId)
    requires !IsMember(s, server, user) && IsMember(Step(s, a).0, server, user)
    ensures var row := Step(s, a).0.members[(server, user)];
            if MakesPlace(s, a, server, user) then row == Row(Owner, false, false)
            else if a.Remint? then
              && (a.server, user) in s.members
              && var prior := s.members[(a.server, user)];
                 row == Row(if prior.role == Member then Member else Admin, prior.canKick, prior.canBan)
            else if TakesOver(s, a, server) then row == Row(if user == BOT then Admin else Owner, true, true)
            else row == Row(Member, false, false)
  {
    if a.Remint? {
      RemintRow(s, a, server, user);
    } else if a.Register? {
      RegisterRow(s, a, server, user);
    } else {
      hide RecentKicks, Inherited, JoinLobby, RegisterStep, RemintStep, RemintCompletes;
    }
  }

  lemma RemintRow(s: State, a: Action, server: ServerId, user: UserId)
    requires a.Remint? && !IsMember(s, server, user) && IsMember(Step(s, a).0, server, user)
    ensures var row := Step(s, a).0.members[(server, user)];
            if MakesPlace(s, a, server, user) then row == Row(Owner, false, false)
            else && (a.server, user) in s.members
                 && var prior := s.members[(a.server, user)];
                    row == Row(if prior.role == Member then Member else Admin, prior.canKick, prior.canBan)
  {
    RemintCompletesIff(s, a);
    InheritedRows(s, a.server, a.newOwner, a.newId);
    hide RemintCompletes;
  }

  lemma RegisterRow(s: State, a: Action, server: ServerId, user: UserId)
    requires a.Register? && !IsMember(s, server, user) && IsMember(Step(s, a).0, server, user)
    ensures var row := Step(s, a).0.members[(server, user)];
            if TakesOver(s, a, server) then row == Row(if user == BOT then Admin else Owner, true, true)
            else row == Row(Member, false, false)
  {
  }

  // So in every reachable state a newcomer to a place that is there has no rank and no right.
  lemma {:induction false} NewcomersHaveNoRights(actions: seq<Action>, a: Action, server: ServerId, user: UserId)
    requires server in Run(actions).servers
    requires !IsMember(Run(actions), server, user) && IsMember(Step(Run(actions), a).0, server, user)
    ensures Step(Run(actions), a).0.members[(server, user)] == Row(Member, false, false)
  {
    NobodyTakesOverTheLobby(actions);
    NewRowIs(Run(actions), a, server, user);
    BecomesMemberIff(Run(actions), a, server, user);
    hide Run, Step;
  }

  // The guards under which a request takes a row away.
  predicate TakesRow(s: State, a: Action, server: ServerId, user: UserId) {
    match a
    case Leave(u, place) => user == u && server == place && !HasRole(s, place, u, {Owner})
    case KickOut(caller, place, target) =>
      user == target && server == place && HasRole(s, place, caller, {Owner, Admin}) && !HasRole(s, place, target, {Owner})
    case Ban(caller, place, target, everyRoom) =>
      && user == target && server == place && HasRole(s, place, caller, {Owner, Admin}) && everyRoom
      && place in s.servers && s.servers[place].owner != target && !IsBanned(s, place, target)
    case Delete(caller, place) => server == place && HasRole(s, place, caller, {Owner, Admin}) && place in s.servers
    case _ => false
  }

  // A row goes away exactly under these guards, and a recorded kick is not among them.
  lemma LosesRowIff(s: State, a: Action, server: ServerId, user: UserId)
    requires IsMember(s, server, user)
    ensures !IsMember(Step(s, a).0, server, user) <==> TakesRow(s, a, server, user)
  {
    hide RecentKicks, Inherited;
  }

  // With one owner per place, the owner's row goes away only with the place.
  lemma RowsGoOnlyByAuthority(s: State, a: Action, server: ServerId, user: UserId)
    requires OneOwner(s) && IsMember(s, server, user) && !IsMember(Step(s, a).0, server, user)
    ensures || (a == Leave(user, server))
            || ((a.KickOut? || a.Ban?) && a.server == server && a.target == user && HasRole(s, server, a.caller, {Owner, Admin}))
            || (a.Delete? && a.server == server && HasRole(s, server, a.caller, {Owner, Admin}))
    ensures IsOwner(s, server, user) ==> a.Delete?
  {
    LosesRowIff(s, a, server, user);
    assert Sole(s, (server, user));
    hide Step;
  }

  // ---- Roles and rights ----

  // In reachable states a row that stays changes its role only by the owner's word, never to
  // or from that of an owner.
  lemma RoleChangesIff(s: State, a: Action, server: ServerId, user: UserId)
    requires Good(s) && IsMember(s, server, user) && IsMember(Step(s, a).0, server, user)
    ensures Step(s, a).0.members[(server, user)].role != s.members[(server, user)].role
       <==> && a.UpdateRole? && a.server == server && a.target == user
            && HasRole(s, server, a.caller, {Owner}) && !HasRole(s, server, user, {Owner})
            && s.members[(server, user)].role != if a.admin then Admin else Member
  {
    InheritedElsewhere(s, a, server, user);
    hide RecentKicks, Inherited, OneOwner;
  }

  // A re-mint that completes adds rows and changes none.
  lemma InheritedElsewhere(s: State, a: Action, server: ServerId, user: UserId)
    requires IsMember(s, server, user)
    ensures a.Remint? && Step(s, a).1.Done? ==> Step(s, a).0.members[(server, user)] == s.members[(server, user)]
  {
    hide Inherited;
  }

  // And its rights only by an admin's, each by its own switch.
  lemma RightsChangeIff(s: State, a: Action, server: ServerId, user: UserId)
    requires Good(s) && IsMember(s, server, user) && IsMember(Step(s, a).0, server, user)
    ensures var before, after := s.members[(server, user)], Step(s, a).0.members[(server, user)];
            var permitted := a.UpdatePermissions? && a.server == server && a.target == user && HasRole(s, server, a.caller, {Owner, Admin});
            && (after.canKick != before.canKick <==> permitted && a.kick == Some(!before.canKick))
            && (after.canBan != before.canBan <==> permitted && a.ban == Some(!before.canBan))
  {
    InheritedElsewhere(s, a, server, user);
    hide RecentKicks, Inherited, OneOwner;
  }

  // ---- Bans ----

  predicate MayKick(s: State, server: ServerId, user: UserId) {
    HasRole(s, server, user, {Owner, Admin}) || ((server, user) in s.members && s.members[(server, user)].canKick)
  }

  // The kick records of a user at a place that are no older than `from`.
  function WindowKicks(kicks: seq<Membership.Kick>, server: ServerId, user: UserId, from: real): set<nat> {
    set i: nat | i < |kicks| && kicks[i].server == server && kicks[i].user == user && kicks[i].at >= from
  }

  lemma {:induction false} RecentKicksCount(kicks: seq<Membership.Kick>, server: ServerId, user: UserId, from: real)
    ensures RecentKicks(kicks, server, user, from) == |WindowKicks(kicks, server, user, from)|
  {
    if |kicks| > 0 {
      var n := |kicks| - 1;
      var k := kicks[n];
      RecentKicksCount(kicks[..n], server, user, from);
      var all, before := WindowKicks(kicks, server, user, from), WindowKicks(kicks[..n], server, user, from);
      forall i: nat ensures i in all <==> i in before || (i == n && k.server == server && k.user == user && k.at >= from) {
        if i < n { assert kicks[..n][i] == kicks[i]; }
      }
      assert all == if k.server == server && k.user == user && k.at >= from then before + {n} else before;
    }
  }

  lemma NextKickBansIff(s: State, server: ServerId, user: UserId)
    requires server in s.servers
    ensures NextKickBans(s, server, user)
       <==> |WindowKicks(s.kicks + [Membership.Kick(server, user, s.clock)], server, user,
                         s.clock - 60.0 * (s.servers[server].kickWindowMinutes as real))| >= s.servers[server].kickLimit
  {
    RecentKicksCount(s.kicks + [Membership.Kick(server, user, s.clock)], server, user, WindowStart(s, server));
  }

  // A recorded kick, by somebody allowed to or by a vote, that fills the limit.
  predicate Escalates(s: State, a: Action, server: ServerId, user: UserId) {
    && (a.RecordKick? || a.ExecuteVote?) && a.server == server && a.target == user && server in s.servers
    && (a.RecordKick? ==> MayKick(s, server, a.caller) && IsMember(s, server, user))
    && |WindowKicks(s.kicks + [Membership.Kick(server, user, s.clock)], server, user,
                    s.clock - 60.0 * (s.servers[server].kickWindowMinutes as real))| >= s.servers[server].kickLimit
  }

  predicate FilesEverywhere(s: State, a: Action, server: ServerId, user: UserId) {
    a.BanEverywhere? && a.instanceAdmin && a.target == user && server == "" && forall k :: k in s.bans ==> k.1 != user
  }

  predicate BansByHandler(s: State, a: Action, server: ServerId, user: UserId) {
    && a.Ban? && a.server == server && a.target == user && HasRole(s, server, a.caller, {Owner, Admin}) && a.everyRoomBanned
    && server in s.servers && s.servers[server].owner != user
  }

  predicate TouchesBans(a: Action) {
    a.Ban? || a.Unban? || a.RecordKick? || a.ExecuteVote? || a.BanEverywhere? || a.UnbanEverywhere? || a.Delete?
  }

  lemma OthersLeaveBans(s: State, a: Action)
    requires !TouchesBans(a)
    ensures Step(s, a).0.bans == s.bans
  {
    hide RecentKicks, Inherited;
  }

  lemma BecomesBannedIff(s: State, a: Action, server: ServerId, user: UserId)
    requires !IsBanned(s, server, user)
    ensures IsBanned(Step(s, a).0, server, user)
       <==> BansByHandler(s, a, server, user) || Escalates(s, a, server, user) || FilesEverywhere(s, a, server, user)
  {
    hide WindowKicks, RecentKicks, Inherited;
    if a.RecordKick? || a.ExecuteVote? {
      EscalationBans(s, a, server, user);
      hide Step;
    } else if TouchesBans(a) {
      hide Escalates;
      assert !Escalates(s, a, server, user) by { OthersDoNotEscalate(s, a, server, user); }
    } else {
      OthersLeaveBans(s, a);
      hide Step;
    }
  }

  lemma OthersDoNotEscalate(s: State, a: Action, server: ServerId, user: UserId)
    requires !a.RecordKick? && !a.ExecuteVote?
    ensures !Escalates(s, a, server, user)
  {
  }

  lemma EscalationBans(s: State, a: Action, server: ServerId, user: UserId)
    requires (a.RecordKick? || a.ExecuteVote?) && !IsBanned(s, server, user)
    ensures IsBanned(Step(s, a).0, server, user) <==> Escalates(s, a, server, user)
  {
    if server in s.servers { NextKickBansIff(s, server, user); }
    hide WindowKicks, NextKickBans;
  }

  lemma BanIsLiftedIff(s: State, a: Action, server: ServerId, user: UserId)
    requires IsBanned(s, server, user)
    ensures !IsBanned(Step(s, a).0, server, user)
       <==> || (a.Unban? && a.server == server && a.target == user && HasRole(s, server, a.caller, {Owner, Admin}))
            || (a.UnbanEverywhere? && a.instanceAdmin && a.target == user)
            || (a.Delete? && a.server == server && HasRole(s, server, a.caller, {Owner, Admin}) && server in s.servers)
  {
    hide RecentKicks, Inherited;
  }

  // Each kick that is recorded, by a member with the right or by a vote, is filed once, at
  // that place, against that user, at that time; and no record is ever lost.
  lemma KicksAreRecorded(s: State, a: Action)
    ensures var before, after := s.kicks, Step(s, a).0.kicks;
            var recorded := (a.RecordKick? && MayKick(s, a.server, a.caller) && IsMember(s, a.server, a.target) && a.server in s.servers)
                         || (a.ExecuteVote? && a.server in s.servers);
            if recorded then
              && |after| == |before| + 1 && after[..|before|] == before
              && after[|before|].server == a.server && after[|before|].user == a.target && after[|before|].at == s.clock
            else after == before
  {
    hide RecentKicks, Inherited, NextKickBans;
  }

  // ---- Offers and marks ----

  // A direct invitation comes about by an admin's hand, to somebody neither a member nor
  // banned, and goes with the answer.
  lemma OffersMoveIff(s: State, a: Action, server: ServerId, user: UserId)
    ensures var before, after := (server, user) in s.offers, (server, user) in Step(s, a).0.offers;
            && (!before && after <==>
                  && a.Invite? && a.server == server && a.target == user && HasRole(s, server, a.caller, {Owner, Admin})
                  && (server, user) !in s.members && (server, user) !in s.bans && !before)
            && (before && !after <==>
                  && before && (a.AcceptDirect? || a.DeclineDirect?) && a.server == server && a.user == user
                  && (a.AcceptDirect? ==> (server, user) !in s.members))
  {
    hide RecentKicks, Inherited;
  }

  lemma OthersLeaveMarks(s: State, a: Action)
    requires !a.SeedLobby? && !a.PostWelcome? && !a.Register? && !a.Pass?
    ensures var t := Step(s, a).0; t.lobby == s.lobby && t.marks == s.marks && t.clock == s.clock
  {
    hide RecentKicks, Inherited, NextKickBans;
  }

  // The lobby is named once, with its mark; and every mark, once set, stays.
  lemma MarksMoveIff(s: State, a: Action)
    ensures var t := Step(s, a).0;
            var seeds := a.SeedLobby? && !s.marks.seeded && a.botReady && MakesPlace(s, a, a.newId, BOT);
            && t.lobby == (if seeds then Some(a.newId) else s.lobby)
            && (t.marks.seeded <==> s.marks.seeded || seeds)
            && (t.marks.firstBootComplete <==>
                  s.marks.firstBootComplete || (a.Register? && Completes(s, a) && s.marks == Marks(false, false, false)))
            && (t.marks.welcomePosted <==>
                  s.marks.welcomePosted || (seeds && a.posted) || (a.PostWelcome? && s.lobby.Some? && s.lobby.value in s.servers))
            && t.clock == (if a.Pass? && a.later >= s.clock then a.later else s.clock)
  {
    if !a.SeedLobby? && !a.PostWelcome? && !a.Register? && !a.Pass? {
      OthersLeaveMarks(s, a);
      hide Step, MakesPlace, Completes;
    } else if a.Register? {
      RegisterMarks(s, a);
      hide Step, MakesPlace, Completes;
    }
  }

  lemma RegisterMarks(s: State, a: Action)
    requires a.Register?
    ensures var t := Step(s, a).0;
            && t.lobby == s.lobby && t.clock == s.clock
            && t.marks == s.marks.(firstBootComplete :=
                 s.marks.firstBootComplete || (Completes(s, a) && s.marks == Marks(false, false, false)))
  {
  }

  // ---- Banned, and in all the same ----

  predicate BannedMember(s: State, server: ServerId, user: UserId) {
    IsBanned(s, server, user) && IsMember(s, server, user)
  }

  // "A banned user is not a member" does not hold, and this is exactly how it is lost: a kick
  // recorded on a member fills the limit, or a user banned before is let in by a request that
  // does not ask; the third case, an instance-wide ban, needs a row at no place at all.
  lemma BannedMemberArisesIff(s: State, a: Action, server: ServerId, user: UserId)
    requires !BannedMember(s, server, user)
    ensures BannedMember(Step(s, a).0, server, user)
       <==> || (IsMember(s, server, user) && (Escalates(s, a, server, user) || FilesEverywhere(s, a, server, user)))
            || (IsBanned(s, server, user) && LetsIn(s, a, server, user))
  {
    hide Step, LetsIn, TakesRow, Escalates, FilesEverywhere, BansByHandler;
    if IsMember(s, server, user) { LosesRowIff(s, a, server, user); } else { BecomesMemberIff(s, a, server, user); }
    if IsBanned(s, server, user) { BanIsLiftedIff(s, a, server, user); } else { BecomesBannedIff(s, a, server, user); }
    NotBothAtOnce(s, a, server, user);
  }

  // What bans does not let in, and what lifts bans does not either; a ban by its own handler
  // takes the row away.
  lemma NotBothAtOnce(s: State, a: Action, server: ServerId, user: UserId)
    ensures LetsIn(s, a, server, user) ==>
              !BansByHandler(s, a, server, user) && !Escalates(s, a, server, user) && !FilesEverywhere(s, a, server, user)
              && !a.Unban? && !a.UnbanEverywhere? && !a.Delete?
    ensures BansByHandler(s, a, server, user) && !IsBanned(s, server, user) ==> TakesRow(s, a, server, user)
    ensures Escalates(s, a, server, user) || FilesEverywhere(s, a, server, user) ==> !TakesRow(s, a, server, user)
  {
    hide NextKickBans;
  }

  // Of the public ways in, those that ask the ban list let nobody in who is on it.
  lemma BannedUsersEnterOnlyUnasked(s: State, a: Action, server: ServerId, user: UserId)
    requires IsBanned(s, server, user) && !IsMember(s, server, user)
    ensures IsMember(Step(s, a).0, server, user) <==> LetsIn(s, a, server, user)
    ensures IsMember(Step(s, a).0, server, user) ==> !a.Join? && !a.Redeem?
  {
    BecomesMemberIff(s, a, server, user);
    hide Step;
  }

  predicate OwnerBanned(s: State, server: ServerId) {
    server in s.servers && IsBanned(s, server, s.servers[server].owner)
  }

  // The ban handler refuses the owner, and the owner of a place becomes banned there in
  // exactly these ways: by the same escalation, or by owning a place made under an identifier
  // where that user is banned already.
  lemma OwnerBannedArisesIff(s: State, a: Action, server: ServerId)
    requires Good(s) && !OwnerBanned(s, server)
    ensures OwnerBanned(Step(s, a).0, server)
       <==> || (server in s.servers && Escalates(s, a, server, s.servers[server].owner))
            || (server in s.servers && FilesEverywhere(s, a, server, s.servers[server].owner))
            || (exists user {:trigger IsBanned(s, server, user)} :: IsBanned(s, server, user) && MakesPlace(s, a, server, user))
  {
    if server in s.servers {
      StepKeepsGood(s, a);
      var owner := s.servers[server].owner;
      PlaceGoesIff(s, a, server);
      BecomesBannedIff(s, a, server, owner);
      hide Step, Good, Escalates, FilesEverywhere, RemintCompletes;
      if server in Step(s, a).0.servers {
        OwnershipMovesOnlyOnFirstBoot(s, a, server);
      } else {
        DeletionBansNobody(s, a, server, owner);
      }
    } else {
      NewPlaceOwner(s, a, server);
      hide Step, Good, Escalates, FilesEverywhere, MakesPlace;
    }
  }

  lemma DeletionBansNobody(s: State, a: Action, server: ServerId, user: UserId)
    requires a.Delete?
    ensures !Escalates(s, a, server, user) && !FilesEverywhere(s, a, server, user)
  {
  }

  // ---- Places ----

  // The guards under which a request makes a place, and for whom.
  predicate MakesPlace(s: State, a: Action, server: ServerId, owner: UserId) {
    match a
    case SeedLobby(newId, botReady, _) =>
      && server == newId != EVERYWHERE && owner == BOT && !s.marks.seeded && botReady
      && newId !in s.servers && !IsMember(s, newId, BOT)
    case Create(u, newId, _) => server == newId != EVERYWHERE && owner == u && newId !in s.servers && !IsMember(s, newId, u)
    case Remint(_, _, newOwner, _, newId) => server == newId && owner == newOwner && RemintCompletes(s, a)
    case _ => false
  }

  lemma PlaceComesIff(s: State, a: Action, server: ServerId, owner: UserId)
    requires server !in s.servers
    ensures server in Step(s, a).0.servers && Step(s, a).0.servers[server].owner == owner <==> MakesPlace(s, a, server, owner)
  {
    if a.Remint? { RemintCompletesIff(s, a); }
    hide RecentKicks, Inherited, RemintCompletes, NextKickBans;
  }

  // And what its settings are: the lobby is public, a new place as asked for, both with the
  // default limit; a re-minted one is as the old one was.
  lemma NewPlaceIs(s: State, a: Action, server: ServerId)
    requires server !in s.servers && server in Step(s, a).0.servers
    ensures var place := Step(s, a).0.servers[server];
            match a
            case SeedLobby(_, _, _) => place == Server(BOT, true, 3, 30)
            case Create(user, _, isPublic) => place == Server(user, isPublic, 3, 30)
            case Remint(_, prior, newOwner, _, _) =>
              && prior in s.servers
              && place == Server(newOwner, s.servers[prior].isPublic, s.servers[prior].kickLimit, s.servers[prior].kickWindowMinutes)
            case _ => false
  {
    hide RecentKicks, Inherited, NextKickBans;
  }

  lemma OthersLeaveSettings(s: State, a: Action, server: ServerId)
    requires !a.SetVisibility? && !a.ConfigureKicks? && server in s.servers && server in Step(s, a).0.servers
    ensures Step(s, a).0.servers[server] == s.servers[server].(owner := Step(s, a).0.servers[server].owner)
  {
    hide RecentKicks, Inherited, NextKickBans;
  }

  // A setting of a place changes if and only if an admin of it changes that one, and then to
  // what the admin asks for.
  lemma SettingsChangeIff(s: State, a: Action, server: ServerId)
    requires server in s.servers && server in Step(s, a).0.servers
    ensures var before, after := s.servers[server], Step(s, a).0.servers[server];
            var admin := (a.SetVisibility? || a.ConfigureKicks?) && a.server == server && HasRole(s, server, a.caller, {Owner, Admin});
            var allowed := a.ConfigureKicks? && (a.limit.Some? ==> 1 <= a.limit.value <= 100) && (a.minutes.Some? ==> 1 <= a.minutes.value <= 1440);
            && (after.isPublic != before.isPublic <==> admin && a.SetVisibility? && a.isPublic != before.isPublic)
            && after.kickLimit == (if admin && allowed && a.limit.Some? then a.limit.value else before.kickLimit)
            && after.kickWindowMinutes == (if admin && allowed && a.minutes.Some? then a.minutes.value else before.kickWindowMinutes)
  {
    if !a.SetVisibility? && !a.ConfigureKicks? {
      OthersLeaveSettings(s, a, server);
      hide Step;
    }
  }

  lemma PlaceGoesIff(s: State, a: Action, server: ServerId)
    requires server in s.servers
    ensures server !in Step(s, a).0.servers <==> a.Delete? && a.server == server && HasRole(s, server, a.caller, {Owner, Admin})
  {
    hide RecentKicks, Inherited, NextKickBans;
  }

  lemma NewPlaceOwner(s: State, a: Action, server: ServerId)
    requires server !in s.servers
    ensures OwnerBanned(Step(s, a).0, server)
       <==> exists user {:trigger IsBanned(s, server, user)} :: IsBanned(s, server, user) && MakesPlace(s, a, server, user)
  {
    hide Step, MakesPlace;
    var t := Step(s, a).0;
    if server in t.servers {
      var owner := t.servers[server].owner;
      PlaceComesIff(s, a, server, owner);
      MakersBanNobody(s, a, server, owner);
      assert IsBanned(t, server, owner) <==> IsBanned(s, server, owner);
    }
    forall user | IsBanned(s, server, user) && MakesPlace(s, a, server, user) ensures OwnerBanned(t, server) {
      PlaceComesIff(s, a, server, user);
      MakersBanNobody(s, a, server, user);
    }
  }

  lemma MakersBanNobody(s: State, a: Action, server: ServerId, owner: UserId)
    requires MakesPlace(s, a, server, owner)
    ensures Step(s, a).0.bans == s.bans
  {
    hide RecentKicks, Inherited, RemintCompletes;
  }

  // ---- Frames and examples ----

  // The place a request is about, if it names one.
  function PlaceOf(a: Action): Option<ServerId> {
    match a
    case Join(_, server) => Some(server)
    case Redeem(_, server, _) => Some(server)
    case Invite(_, server, _) => Some(server)
    case AcceptDirect(_, server) => Some(server)
    case DeclineDirect(_, server) => Some(server)
    case Leave(_, server) => Some(server)
    case UpdateRole(_, server, _, _) => Some(server)
    case UpdatePermissions(_, server, _, _, _) => Some(server)
    case SetVisibility(_, server, _) => Some(server)
    case ConfigureKicks(_, server, _, _) => Some(server)
    case KickOut(_, server, _) => Some(server)
    case Ban(_, server, _, _) => Some(server)
    case Unban(_, server, _) => Some(server)
    case RecordKick(_, server, _) => Some(server)
    case ExecuteVote(server, _) => Some(server)
    case Delete(_, server) => Some(server)
    case _ => None
  }

  lemma OtherRowsAreUntouched(s: State, a: Action, k: (ServerId, UserId))
    requires PlaceOf(a).Some? && k.0 != PlaceOf(a).value
    ensures var t := Step(s, a).0; (k in t.members <==> k in s.members) && (k in s.members ==> t.members[k] == s.members[k])
  {
    hide RecentKicks, Inherited, JoinLobby, RemintStep, RegisterStep, SeedStep, NextKickBans;
  }

  lemma OtherBansAreUntouched(s: State, a: Action, k: (ServerId, UserId))
    requires PlaceOf(a).Some? && k.0 != PlaceOf(a).value
    ensures var t := Step(s, a).0; (k in t.bans <==> k in s.bans) && (k in t.offers <==> k in s.offers)
  {
    hide RecentKicks, Inherited, JoinLobby, RemintStep, RegisterStep, SeedStep, NextKickBans;
  }

  lemma OtherServersAreUntouched(s: State, a: Action, server: ServerId)
    requires PlaceOf(a).Some? && server != PlaceOf(a).value
    ensures var t := Step(s, a).0; (server in t.servers <==> server in s.servers) && (server in s.servers ==> t.servers[server] == s.servers[server])
    ensures Step(s, a).1 != Done ==> Step(s, a).0 == s
  {
    hide RecentKicks, Inherited, JoinLobby, RemintStep, RegisterStep, SeedStep, NextKickBans;
  }

  // Such a request changes nothing about any other place, and a refused one nothing at all.
  lemma OtherPlacesAreUntouched(s: State, a: Action, k: (ServerId, UserId))
    requires PlaceOf(a).Some? && k.0 != PlaceOf(a).value
    ensures var t := Step(s, a).0;
            && (k in t.members <==> k in s.members) && (k in s.members ==> t.members[k] == s.members[k])
            && (k in t.bans <==> k in s.bans) && (k in t.offers <==> k in s.offers)
            && (k.0 in t.servers <==> k.0 in s.servers) && (k.0 in s.servers ==> t.servers[k.0] == s.servers[k.0])
    ensures Step(s, a).1 != Done ==> Step(s, a).0 == s
  {
    OtherRowsAreUntouched(s, a, k);
    OtherBansAreUntouched(s, a, k);
    OtherServersAreUntouched(s, a, k.0);
    hide Step;
  }

  // Who is told 403, over all requests: whoever asks for what only an owner, an admin or
  // somebody with the right may do, is banned from or kept out of the place, or registers
  // where registration is closed. Nobody else is.
  predicate Forbidden(s: State, a: Action) {
    match a
    case Register(_, open, invitedTo) => s.marks != Marks(false, false, false) && !open && invitedTo.None?
    case Join(user, server) => server in s.servers && (!s.servers[server].isPublic || (server, user) in s.bans)
    case Redeem(user, server, valid) => valid && server in s.servers && (server, user) in s.bans
    case Invite(caller, server, _) => !HasRole(s, server, caller, {Owner, Admin})
    case Leave(user, server) => (server, user) !in s.members
    case UpdateRole(caller, server, _, _) => !HasRole(s, server, caller, {Owner})
    case UpdatePermissions(caller, server, _, _, _) => !HasRole(s, server, caller, {Owner, Admin})
    case SetVisibility(caller, server, _) => !HasRole(s, server, caller, {Owner, Admin})
    case ConfigureKicks(caller, server, limit, minutes) =>
      && (limit.Some? ==> 1 <= limit.value <= 100) && (minutes.Some? ==> 1 <= minutes.value <= 1440)
      && !HasRole(s, server, caller, {Owner, Admin})
    case KickOut(caller, server, _) => !HasRole(s, server, caller, {Owner, Admin})
    case Ban(caller, server, _, _) => !HasRole(s, server, caller, {Owner, Admin})
    case Unban(caller, server, _) => !HasRole(s, server, caller, {Owner, Admin})
    case RecordKick(caller, server, _) => !MayKick(s, server, caller)
    case BanEverywhere(instanceAdmin, _) => !instanceAdmin
    case UnbanEverywhere(instanceAdmin, _) => !instanceAdmin
    case Remint(caller, server, _, _, _) => server in s.servers && s.servers[server].owner != caller
    case Delete(caller, server) => !HasRole(s, server, caller, {Owner, Admin})
    case _ => false
  }

  lemma ForbiddenIff(s: State, a: Action)
    ensures Step(s, a).1 == Refused(403) <==> Forbidden(s, a)
    ensures Forbidden(s, a) ==> Step(s, a).0 == s
  {
    hide RecentKicks, Inherited, JoinLobby, Recorded;
  }

  lemma BanRemovesTheRow(s: State, a: Action)
    requires a.Ban? && Step(s, a).1 == Done
    ensures BannedButGone(Step(s, a).0, a.server, a.target) && a.target != s.servers[a.server].owner
  {
  }

  predicate BannedButGone(s: State, server: ServerId, user: UserId) {
    IsBanned(s, server, user) && !IsMember(s, server, user)
  }

  // An instance-wide ban keeps nobody out of any place: no way in asks for it.
  lemma InstanceBansKeepNobodyOut(s: State, a: Action, target: UserId, server: ServerId, user: UserId)
    requires server != EVERYWHERE && !IsMember(s, server, user)
    ensures var t := Step(s, BanEverywhere(true, target)).0; LetsIn(t, a, server, user) <==> LetsIn(s, a, server, user)
  {
  }

  lemma OneMoreStep(actions: seq<Action>, a: Action)
    ensures Run(actions + [a]) == Step(Run(actions), a).0
  {
    assert (actions + [a])[..|actions|] == actions;
  }

  // A place whose owner has been kicked n times, all just now, by the default rules.
  ghost predicate KickedDen(s: State, n: nat) {
    && "den" in s.servers && s.servers["den"] == Server("ann", false, 3, 30)
    && IsOwner(s, "den", "ann") && s.clock == 0.0
    && RecentKicks(s.kicks, "den", "ann", -1800.0) == n
  }

  lemma KickedAgain(s: State, n: nat)
    requires KickedDen(s, n)
    ensures var t := Step(s, RecordKick("ann", "den", "ann")).0;
            KickedDen(t, n + 1) && (n + 1 >= 3 ==> IsBanned(t, "den", "ann"))
  {
    var k := Membership.Kick("den", "ann", 0.0);
    assert (s.kicks + [k])[..|s.kicks|] == s.kicks;
    assert WindowStart(s, "den") == -1800.0;
  }

  // Three kicks within the default window, on the owner, by the owner.
  lemma EscalationBansTheOwnerInPlace()
    ensures var kick := RecordKick("ann", "den", "ann");
            var s := Run([] + [Create("ann", "den", false)] + [kick] + [kick] + [kick]);
            IsBanned(s, "den", "ann") && IsOwner(s, "den", "ann")
  {
    var kick := RecordKick("ann", "den", "ann");
    var one := [] + [Create("ann", "den", false)];
    OneMoreStep([], Create("ann", "den", false));
    OneMoreStep(one, kick);
    OneMoreStep(one + [kick], kick);
    OneMoreStep(one + [kick] + [kick], kick);
    assert KickedDen(Run(one), 0);
    hide Step, Run, KickedDen;
    KickedAgain(Run(one), 0);
    KickedAgain(Run(one + [kick]), 1);
    KickedAgain(Run(one + [kick] + [kick]), 2);
    OwnerStays(Run(one + [kick] + [kick] + [kick]), 3);
  }

  lemma OwnerStays(s: State, n: nat)
    requires KickedDen(s, n)
    ensures IsOwner(s, "den", "ann")
  {
  }
}
