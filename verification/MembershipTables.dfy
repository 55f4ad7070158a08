// The tables the handlers work on. Whatever is asked of them, every place keeps exactly one
// owner and the lobby its mark.
module MembershipTables {
  import opened Common
  import opened Membership
  import opened Ownership

  class Directory {
    var servers: map<ServerId, Server>
    var members: map<(ServerId, UserId), Row>
    var bans: set<(ServerId, UserId)>
    var offers: set<(ServerId, UserId)>
    var kicks: seq<Membership.Kick>
    var lobby: Option<ServerId>
    var marks: Marks
    var clock: real

    function Now(): State
      reads this
    {
      State(servers, members, bans, offers, kicks, lobby, marks, clock)
    }

    // Every place has exactly one owner, and a lobby that is there has left its mark.
    ghost predicate Valid()
      reads this
    {
      Good(Now())
    }

    constructor ()
      ensures Valid() && Now() == Empty
    {
      servers, members, bans, offers, kicks, lobby := map[], map[], {}, {}, [], None;
      marks, clock := Marks(false, false, false), 0.0;
    }

    method CreateServer(user: UserId, newId: ServerId, isPublic: bool) returns (r: Reply)
      requires Valid()
      modifies this
      ensures Valid() && (Now(), r) == Step(old(Now()), Create(user, newId, isPublic))
    {
      StepKeepsGood(Now(), Create(user, newId, isPublic));
      hide Good;
      if newId == EVERYWHERE || newId in servers || (newId, user) in members {
        return Conflict;
      }
      servers := servers[newId := Server(user, isPublic, 3, 30)];
      members := members[(newId, user) := OWNER_ROW];
      r := Done;
    }

    method SeedDefaultServer(newId: ServerId, botReady: bool, posted: bool) returns (r: Reply)
      requires Valid()
      modifies this
      ensures Valid() && (Now(), r) == Step(old(Now()), SeedLobby(newId, botReady, posted))
    {
      StepKeepsGood(Now(), SeedLobby(newId, botReady, posted));
      hide Good;
      if marks.seeded {
        return Done;
      }
      if !botReady {
        return Done;
      }
      r := CreateServer(BOT, newId, true);
      if r.Done? {
        lobby := Some(newId);
        marks := marks.(seeded := true);
        if posted {
          marks := marks.(welcomePosted := true);
        }
      }
    }

    method EnsureLobbyWelcome() returns (r: Reply)
      requires Valid()
      modifies this
      ensures Valid() && (Now(), r) == Step(old(Now()), PostWelcome)
    {
      StepKeepsGood(Now(), PostWelcome);
      hide Good;
      if lobby.Some? && lobby.value in servers {
        marks := marks.(welcomePosted := true);
      }
      r := Done;
    }

    method RegisterUser(user: UserId, openRegistration: bool, invitedTo: Option<ServerId>) returns (r: Reply)
      requires Valid()
      modifies this
      ensures Valid() && (Now(), r) == Step(old(Now()), Register(user, openRegistration, invitedTo))
    {
      StepKeepsGood(Now(), Register(user, openRegistration, invitedTo));
      hide Good;
      var firstBoot := FirstBoot(marks);
      if !firstBoot && !openRegistration && invitedTo.None? {
        return Refused(403);
      }
      if invitedTo.Some? && invitedTo.value !in servers {
        return Refused(400);
      }
      var serversBefore, membersBefore := servers, members;
      if lobby.Some? && invitedTo != lobby {
        JoinDefault(user, firstBoot);
      }
      if invitedTo.Some? {
        if (invitedTo.value, user) in members {
          servers, members := serversBefore, membersBefore;
          return Conflict;
        }
        members := members[(invitedTo.value, user) := PLAIN];
      }
      if firstBoot {
        marks := marks.(firstBootComplete := true);
      }
      r := Done;
    }

    // The automatic join of the lobby, with the transfer of its ownership on first boot.
    method JoinDefault(user: UserId, firstBoot: bool)
      requires lobby.Some? && firstBoot == FirstBoot(marks)
      modifies this`servers, this`members
      ensures Now() == JoinLobby(old(Now()), user, Promotes(old(Now())))
    {
      var id := lobby.value;
      var promote := firstBoot && id in servers && servers[id].owner == BOT;
      if (id, user) !in members {
        members := members[(id, user) := Row(if promote then Owner else Member, promote, promote)];
      } else if promote {
        members := members[(id, user) := Row(Owner, true, true)];
      }
      if promote {
        servers := servers[id := servers[id].(owner := user)];
        if (id, BOT) in members && members[(id, BOT)].role == Owner {
          members := members[(id, BOT) := members[(id, BOT)].(role := Admin)];
        }
      }
    }

    method ListServersOf(user: UserId, allRoomsJoined: bool) returns (r: Reply)
      requires Valid()
      modifies this
      ensures Valid() && (Now(), r) == Step(old(Now()), ListServers(user, allRoomsJoined))
    {
      StepKeepsGood(Now(), ListServers(user, allRoomsJoined));
      hide Good;
      if lobby.Some? && (lobby.value, user) !in members && allRoomsJoined {
        members := members[(lobby.value, user) := PLAIN];
      }
      r := Done;
    }

    method JoinServer(user: UserId, server: ServerId) returns (r: Reply)
      requires Valid()
      modifies this
      ensures Valid() && (Now(), r) == Step(old(Now()), Join(user, server))
    {
      StepKeepsGood(Now(), Join(user, server));
      hide Good;
      if server !in servers {
        return Refused(404);
      }
      if !servers[server].isPublic {
        return Refused(403);
      }
      if (server, user) in bans {
        return Refused(403);
      }
      if (server, user) in members {
        return Refused(400);
      }
      members := members[(server, user) := PLAIN];
      r := Done;
    }

    method RedeemInvite(user: UserId, server: ServerId, valid: bool) returns (r: Reply)
      requires Valid()
      modifies this
      ensures Valid() && (Now(), r) == Step(old(Now()), Redeem(user, server, valid))
    {
      StepKeepsGood(Now(), Redeem(user, server, valid));
      hide Good;
      if !valid || server !in servers {
        return Refused(400);
      }
      if (server, user) in bans {
        return Refused(403);
      }
      if (server, user) in members {
        return AlreadyMember;
      }
      members := members[(server, user) := PLAIN];
      r := Done;
    }

    method SendDirectInvite(caller: UserId, server: ServerId, target: UserId) returns (r: Reply)
      requires Valid()
      modifies this
      ensures Valid() && (Now(), r) == Step(old(Now()), Invite(caller, server, target))
    {
      StepKeepsGood(Now(), Invite(caller, server, target));
      hide Good;
      if (server, caller) !in members || members[(server, caller)].role == Member {
        return Refused(403);
      }
      if (server, target) in members || (server, target) in bans || (server, target) in offers {
        return Refused(400);
      }
      offers := offers + {(server, target)};
      r := Done;
    }

    method RespondToInvite(user: UserId, server: ServerId, accept: bool) returns (r: Reply)
      requires Valid()
      modifies this
      ensures Valid() && (Now(), r) == Step(old(Now()), if accept then AcceptDirect(user, server) else DeclineDirect(user, server))
    {
      StepKeepsGood(Now(), if accept then AcceptDirect(user, server) else DeclineDirect(user, server));
      hide Good;
      if (server, user) !in offers {
        return Refused(400);
      }
      if accept {
        if (server, user) in members {
          return Conflict;
        }
        members := members[(server, user) := PLAIN];
      }
      offers := offers - {(server, user)};
      r := Done;
    }

    method LeaveServer(user: UserId, server: ServerId) returns (r: Reply)
      requires Valid()
      modifies this
      ensures Valid() && (Now(), r) == Step(old(Now()), Leave(user, server))
    {
      StepKeepsGood(Now(), Leave(user, server));
      hide Good;
      if (server, user) !in members {
        return Refused(403);
      }
      if members[(server, user)].role == Owner {
        return Refused(400);
      }
      members := members - {(server, user)};
      r := Done;
    }

    method UpdateMemberRole(caller: UserId, server: ServerId, target: UserId, admin: bool) returns (r: Reply)
      requires Valid()
      modifies this
      ensures Valid() && (Now(), r) == Step(old(Now()), UpdateRole(caller, server, target, admin))
    {
      StepKeepsGood(Now(), UpdateRole(caller, server, target, admin));
      hide Good;
      if (server, caller) !in members || members[(server, caller)].role != Owner {
        return Refused(403);
      }
      if (server, target) !in members {
        return Refused(404);
      }
      if members[(server, target)].role == Owner {
        return Refused(400);
      }
      members := members[(server, target) := members[(server, target)].(role := if admin then Admin else Member)];
      r := Done;
    }

    method UpdateMemberPermissions(caller: UserId, server: ServerId, target: UserId, kick: Option<bool>, ban: Option<bool>)
        returns (r: Reply)
      requires Valid()
      modifies this
      ensures Valid() && (Now(), r) == Step(old(Now()), UpdatePermissions(caller, server, target, kick, ban))
    {
      StepKeepsGood(Now(), UpdatePermissions(caller, server, target, kick, ban));
      hide Good;
      if (server, caller) !in members || members[(server, caller)].role == Member {
        return Refused(403);
      }
      if (server, target) !in members {
        return Refused(404);
      }
      if kick.Some? {
        members := members[(server, target) := members[(server, target)].(canKick := kick.value)];
      }
      if ban.Some? {
        members := members[(server, target) := members[(server, target)].(canBan := ban.value)];
      }
      assert members == old(members)[(server, target) := members[(server, target)]];
      r := Done;
    }

    method KickMember(caller: UserId, server: ServerId, target: UserId) returns (r: Reply)
      requires Valid()
      modifies this
      ensures Valid() && (Now(), r) == Step(old(Now()), KickOut(caller, server, target))
    {
      StepKeepsGood(Now(), KickOut(caller, server, target));
      hide Good;
      if (server, caller) !in members || members[(server, caller)].role == Member {
        return Refused(403);
      }
      if (server, target) !in members {
        return Refused(404);
      }
      if members[(server, target)].role == Owner {
        return Refused(400);
      }
      members := members - {(server, target)};
      r := Done;
    }

    method BanUser(caller: UserId, server: ServerId, target: UserId, everyRoomBanned: bool) returns (r: Reply)
      requires Valid()
      modifies this
      ensures Valid() && (Now(), r) == Step(old(Now()), Ban(caller, server, target, everyRoomBanned))
    {
      StepKeepsGood(Now(), Ban(caller, server, target, everyRoomBanned));
      hide Good;
      if (server, caller) !in members || members[(server, caller)].role == Member {
        return Refused(403);
      }
      if server !in servers {
        return Refused(404);
      }
      if target == servers[server].owner || (server, target) in bans {
        return Refused(400);
      }
      if !everyRoomBanned {
        return Refused(502);
      }
      bans := bans + {(server, target)};
      members := members - {(server, target)};
      r := Done;
    }

    method UnbanUser(caller: UserId, server: ServerId, target: UserId) returns (r: Reply)
      requires Valid()
      modifies this
      ensures Valid() && (Now(), r) == Step(old(Now()), Unban(caller, server, target))
    {
      StepKeepsGood(Now(), Unban(caller, server, target));
      hide Good;
      if (server, caller) !in members || members[(server, caller)].role == Member {
        return Refused(403);
      }
      if (server, target) !in bans {
        return Refused(404);
      }
      bans := bans - {(server, target)};
      r := Done;
    }

    method SetServerVisibility(caller: UserId, server: ServerId, isPublic: bool) returns (r: Reply)
      requires Valid()
      modifies this
      ensures Valid() && (Now(), r) == Step(old(Now()), SetVisibility(caller, server, isPublic))
    {
      StepKeepsGood(Now(), SetVisibility(caller, server, isPublic));
      hide Good;
      if (server, caller) !in members || members[(server, caller)].role == Member {
        return Refused(403);
      }
      if server !in servers {
        return Refused(404);
      }
      servers := servers[server := servers[server].(isPublic := isPublic)];
      r := Done;
    }

    method UpdateBanSettings(caller: UserId, server: ServerId, limit: Option<int>, minutes: Option<int>) returns (r: Reply)
      requires Valid()
      modifies this
      ensures Valid() && (Now(), r) == Step(old(Now()), ConfigureKicks(caller, server, limit, minutes))
    {
      StepKeepsGood(Now(), ConfigureKicks(caller, server, limit, minutes));
      hide Good;
      if !InRange(limit, 1, 100) || !InRange(minutes, 1, 1440) {
        return Refused(422);
      }
      if (server, caller) !in members || members[(server, caller)].role == Member {
        return Refused(403);
      }
      if server !in servers {
        return Refused(404);
      }
      var place := servers[server];
      if limit.Some? {
        place := place.(kickLimit := limit.value);
      }
      if minutes.Some? {
        place := place.(kickWindowMinutes := minutes.value);
      }
      servers := servers[server := place];
      r := Done;
    }

    method KickUser(caller: UserId, server: ServerId, target: UserId, now: real) returns (r: Reply)
      requires Valid() && clock <= now
      modifies this
      ensures Valid() && (Now(), r) == Step(Step(old(Now()), Pass(now)).0, RecordKick(caller, server, target))
    {
      StepKeepsGood(Now(), Pass(now));
      StepKeepsGood(Step(Now(), Pass(now)).0, RecordKick(caller, server, target));
      hide Good;
      clock := now;
      if (server, caller) !in members || !(members[(server, caller)].role != Member || members[(server, caller)].canKick) {
        return Refused(403);
      }
      if (server, target) !in members {
        return Refused(404);
      }
      if server !in servers {
        return Refused(404);
      }
      RecordAndEscalate(server, target);
      r := Done;
    }

    method ExecutePassedVote(server: ServerId, target: UserId, now: real) returns (r: Reply)
      requires Valid() && clock <= now
      modifies this
      ensures Valid() && (Now(), r) == Step(Step(old(Now()), Pass(now)).0, ExecuteVote(server, target))
    {
      StepKeepsGood(Now(), Pass(now));
      StepKeepsGood(Step(Now(), Pass(now)).0, ExecuteVote(server, target));
      hide Good;
      clock := now;
      if server !in servers {
        return Refused(404);
      }
      RecordAndEscalate(server, target);
      r := Done;
    }

    // The new record is counted with the others of the window.
    method RecordAndEscalate(server: ServerId, target: UserId)
      requires server in servers
      modifies this`kicks, this`bans
      ensures Now() == Recorded(old(Now()), server, target)
    {
      kicks := kicks + [Membership.Kick(server, target, clock)];
      var cutoff := clock - 60.0 * (servers[server].kickWindowMinutes as real);
      if RecentKicks(kicks, server, target, cutoff) >= servers[server].kickLimit {
        bans := bans + {(server, target)};
      }
    }

    method AdminBanUser(instanceAdmin: bool, target: UserId) returns (r: Reply)
      requires Valid()
      modifies this
      ensures Valid() && (Now(), r) == Step(old(Now()), BanEverywhere(instanceAdmin, target))
    {
      StepKeepsGood(Now(), BanEverywhere(instanceAdmin, target));
      hide Good;
      if !instanceAdmin {
        return Refused(403);
      }
      if !IsBannedAnywhere(Now(), target) {
        bans := bans + {(EVERYWHERE, target)};
      }
      r := Done;
    }

    method AdminUnbanUser(instanceAdmin: bool, target: UserId) returns (r: Reply)
      requires Valid()
      modifies this
      ensures Valid() && (Now(), r) == Step(old(Now()), UnbanEverywhere(instanceAdmin, target))
    {
      StepKeepsGood(Now(), UnbanEverywhere(instanceAdmin, target));
      hide Good;
      if !instanceAdmin {
        return Refused(403);
      }
      bans := set k | k in bans && k.1 != target;
      r := Done;
    }

    method DeleteServer(caller: UserId, server: ServerId) returns (r: Reply)
      requires Valid()
      modifies this
      ensures Valid() && (Now(), r) == Step(old(Now()), Delete(caller, server))
    {
      StepKeepsGood(Now(), Delete(caller, server));
      hide Good;
      if (server, caller) !in members || members[(server, caller)].role == Member {
        return Refused(403);
      }
      if server !in servers {
        return Refused(404);
      }
      servers := servers - {server};
      members := map k | k in members && k.0 != server :: members[k];
      bans := set k | k in bans && k.0 != server;
      r := Done;
    }
  }
}
