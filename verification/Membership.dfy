// Places, their members, their bans and kick records: every handler that adds, removes or
// changes a membership row, an owner or a ban, each one an atomic transaction. A row may
// outlive its place's entry or be added for a place that is gone; nothing in the database
// forbids that.
module Membership {
  import opened Common

  type ServerId = string
  type UserId = string

  datatype Role = Owner | Admin | Member
  datatype Row = Row(role: Role, canKick: bool, canBan: bool)
  datatype Server = Server(owner: UserId, isPublic: bool, kickLimit: int, kickWindowMinutes: int)
  datatype Kick = Kick(server: ServerId, user: UserId, at: real)

  // What the settings file says has been done.
  datatype Marks = Marks(firstBootComplete: bool, seeded: bool, welcomePosted: bool)

  datatype State = State(
    servers: map<ServerId, Server>,
    members: map<(ServerId, UserId), Row>,
    bans: set<(ServerId, UserId)>,
    offers: set<(ServerId, UserId)>,
    kicks: seq<Kick>,
    lobby: Option<ServerId>,
    marks: Marks,
    clock: real)

  // Refused with an HTTP status, or undone because a unique key was taken.
  datatype Reply = Done | AlreadyMember | Refused(status: int) | Conflict

  // What a request brings along; `newId` is the identifier drawn for a new place.
  datatype Action =
    | Pass(later: real)
    | SeedLobby(newId: ServerId, botReady: bool, posted: bool)
    | PostWelcome
    | Create(user: UserId, newId: ServerId, isPublic: bool)
    | Register(user: UserId, openRegistration: bool, invitedTo: Option<ServerId>)
    | ListServers(user: UserId, allRoomsJoined: bool)
    | Join(user: UserId, server: ServerId)
    | Redeem(user: UserId, server: ServerId, valid: bool)
    | Invite(caller: UserId, server: ServerId, target: UserId)
    | AcceptDirect(user: UserId, server: ServerId)
    | DeclineDirect(user: UserId, server: ServerId)
    | Leave(user: UserId, server: ServerId)
    | UpdateRole(caller: UserId, server: ServerId, target: UserId, admin: bool)
    | UpdatePermissions(caller: UserId, server: ServerId, target: UserId, kick: Option<bool>, ban: Option<bool>)
    | SetVisibility(caller: UserId, server: ServerId, isPublic: bool)
    | ConfigureKicks(caller: UserId, server: ServerId, limit: Option<int>, minutes: Option<int>)
    | KickOut(caller: UserId, server: ServerId, target: UserId)
    | Ban(caller: UserId, server: ServerId, target: UserId, everyRoomBanned: bool)
    | Unban(caller: UserId, server: ServerId, target: UserId)
    | RecordKick(caller: UserId, server: ServerId, target: UserId)
    | ExecuteVote(server: ServerId, target: UserId)
    | BanEverywhere(instanceAdmin: bool, target: UserId)
    | UnbanEverywhere(instanceAdmin: bool, target: UserId)
    | Remint(caller: UserId, server: ServerId, newOwner: UserId, encrypted: bool, newId: ServerId)
    | Delete(caller: UserId, server: ServerId)

  // Stands for the configured account of the bot.
  const BOT: UserId := "@concord-bot"
  // The place an instance-wide ban is filed under.
  const EVERYWHERE: ServerId := ""
  const Empty := State(map[], map[], {}, {}, [], None, Marks(false, false, false), 0.0)
  const PLAIN := Row(Member, false, false)
  const OWNER_ROW := Row(Owner, false, false)

  // ---- Looking up ----

  predicate IsMember(s: State, server: ServerId, user: UserId) {
    (server, user) in s.members
  }

  predicate IsAdmin(s: State, server: ServerId, user: UserId) {
    IsMember(s, server, user) && s.members[(server, user)].role != Member
  }

  predicate IsOwner(s: State, server: ServerId, user: UserId) {
    IsMember(s, server, user) && s.members[(server, user)].role == Owner
  }

  predicate CanKick(s: State, server: ServerId, user: UserId) {
    IsAdmin(s, server, user) || (IsMember(s, server, user) && s.members[(server, user)].canKick)
  }

  predicate IsBanned(s: State, server: ServerId, user: UserId) {
    (server, user) in s.bans
  }

  predicate IsBannedAnywhere(s: State, user: UserId) {
    exists k :: k in s.bans && k.1 == user
  }

  function Put(s: State, server: ServerId, user: UserId, row: Row): State {
    s.(members := s.members[(server, user) := row])
  }

  function Drop(s: State, server: ServerId, user: UserId): State {
    s.(members := s.members - {(server, user)})
  }

  // Nothing has been provisioned yet, by any of the three marks.
  predicate FirstBoot(marks: Marks) {
    !marks.firstBootComplete && !marks.seeded && !marks.welcomePosted
  }

  // ---- Places ----

  function NewPlace(s: State, user: UserId, newId: ServerId, isPublic: bool): (State, Reply) {
    if newId == EVERYWHERE || newId in s.servers || IsMember(s, newId, user) then (s, Conflict)
    else (Put(s.(servers := s.servers[newId := Server(user, isPublic, 3, 30)]), newId, user, OWNER_ROW), Done)
  }

  // The lobby is seeded once, marked in the same write that names it.
  function SeedStep(s: State, newId: ServerId, botReady: bool, posted: bool): (State, Reply) {
    if s.marks.seeded || !botReady then (s, Done)
    else
      var (next, reply) := NewPlace(s, BOT, newId, true);
      if reply.Done? then
        (next.(lobby := Some(newId),
               marks := s.marks.(seeded := true, welcomePosted := s.marks.welcomePosted || posted)), Done)
      else (s, reply)
  }

  function PostStep(s: State): (State, Reply) {
    if s.lobby.Some? && s.lobby.value in s.servers then (s.(marks := s.marks.(welcomePosted := true)), Done) else (s, Done)
  }

  // ---- Coming in ----

  // A registration on first boot takes over a lobby that still belongs to the bot.
  predicate Promotes(s: State) {
    FirstBoot(s.marks) && s.lobby.Some? && s.lobby.value in s.servers && s.servers[s.lobby.value].owner == BOT
  }

  function JoinLobby(s: State, user: UserId, promote: bool): State
    requires s.lobby.Some? && (promote ==> s.lobby.value in s.servers)
  {
    var lobby := s.lobby.value;
    var joined :=
      if !IsMember(s, lobby, user) then Put(s, lobby, user, Row(if promote then Owner else Member, promote, promote))
      else if promote then Put(s, lobby, user, Row(Owner, true, true))
      else s;
    if !promote then joined
    else
      var owned := joined.(servers := s.servers[lobby := s.servers[lobby].(owner := user)]);
      if IsOwner(owned, lobby, BOT) then Put(owned, lobby, BOT, owned.members[(lobby, BOT)].(role := Admin)) else owned
  }

  predicate RegistrationOpen(s: State, openRegistration: bool, invitedTo: Option<ServerId>) {
    FirstBoot(s.marks) || openRegistration || invitedTo.Some?
  }

  function RegisterStep(s: State, user: UserId, openRegistration: bool, invitedTo: Option<ServerId>): (State, Reply) {
    if !RegistrationOpen(s, openRegistration, invitedTo) then (s, Refused(403))
    else if invitedTo.Some? && invitedTo.value !in s.servers then (s, Refused(400))
    else
      var joined := if s.lobby.Some? && invitedTo != s.lobby then JoinLobby(s, user, Promotes(s)) else s;
      var marked := joined.(marks := s.marks.(firstBootComplete := s.marks.firstBootComplete || FirstBoot(s.marks)));
      if invitedTo.None? then (marked, Done)
      else if IsMember(joined, invitedTo.value, user) then (s, Conflict)
      else (Put(marked, invitedTo.value, user, PLAIN), Done)
  }

  function ListStep(s: State, user: UserId, allRoomsJoined: bool): (State, Reply) {
    if s.lobby.Some? && !IsMember(s, s.lobby.value, user) && allRoomsJoined
    then (Put(s, s.lobby.value, user, PLAIN), Done) else (s, Done)
  }

  function JoinStep(s: State, user: UserId, server: ServerId): (State, Reply) {
    if server !in s.servers then (s, Refused(404))
    else if !s.servers[server].isPublic || IsBanned(s, server, user) then (s, Refused(403))
    else if IsMember(s, server, user) then (s, Refused(400))
    else (Put(s, server, user, PLAIN), Done)
  }

  function RedeemStep(s: State, user: UserId, server: ServerId, valid: bool): (State, Reply) {
    if !valid || server !in s.servers then (s, Refused(400))
    else if IsBanned(s, server, user) then (s, Refused(403))
    else if IsMember(s, server, user) then (s, AlreadyMember)
    else (Put(s, server, user, PLAIN), Done)
  }

  // The ban list is asked when a direct invitation is sent ...
  function InviteStep(s: State, caller: UserId, server: ServerId, target: UserId): (State, Reply) {
    if !IsAdmin(s, server, caller) then (s, Refused(403))
    else if IsMember(s, server, target) || IsBanned(s, server, target) || (server, target) in s.offers then (s, Refused(400))
    else (s.(offers := s.offers + {(server, target)}), Done)
  }

  // ... and not when it is accepted.
  function AcceptStep(s: State, user: UserId, server: ServerId): (State, Reply) {
    if (server, user) !in s.offers then (s, Refused(400))
    else if IsMember(s, server, user) then (s, Conflict)
    else (Put(s.(offers := s.offers - {(server, user)}), server, user, PLAIN), Done)
  }

  function DeclineStep(s: State, user: UserId, server: ServerId): (State, Reply) {
    if (server, user) !in s.offers then (s, Refused(400)) else (s.(offers := s.offers - {(server, user)}), Done)
  }

  // ---- Roles and settings ----

  function LeaveStep(s: State, user: UserId, server: ServerId): (State, Reply) {
    if !IsMember(s, server, user) then (s, Refused(403))
    else if IsOwner(s, server, user) then (s, Refused(400))
    else (Drop(s, server, user), Done)
  }

  function UpdateRoleStep(s: State, caller: UserId, server: ServerId, target: UserId, admin: bool): (State, Reply) {
    if !IsOwner(s, server, caller) then (s, Refused(403))
    else if !IsMember(s, server, target) then (s, Refused(404))
    else if IsOwner(s, server, target) then (s, Refused(400))
    else (Put(s, server, target, s.members[(server, target)].(role := if admin then Admin else Member)), Done)
  }

  function OrElse<T>(o: Option<T>, d: T): T {
    if o.Some? then o.value else d
  }

  function UpdatePermissionsStep(s: State, caller: UserId, server: ServerId, target: UserId,
                                 kick: Option<bool>, ban: Option<bool>): (State, Reply)
  {
    if !IsAdmin(s, server, caller) then (s, Refused(403))
    else if !IsMember(s, server, target) then (s, Refused(404))
    else
      var row := s.members[(server, target)];
      (Put(s, server, target, row.(canKick := OrElse(kick, row.canKick), canBan := OrElse(ban, row.canBan))), Done)
  }

  function SetVisibilityStep(s: State, caller: UserId, server: ServerId, isPublic: bool): (State, Reply) {
    if !IsAdmin(s, server, caller) then (s, Refused(403))
    else if server !in s.servers then (s, Refused(404))
    else (s.(servers := s.servers[server := s.servers[server].(isPublic := isPublic)]), Done)
  }

  predicate InRange(o: Option<int>, low: int, high: int) {
    o.Some? ==> low <= o.value <= high
  }

  function ConfigureKicksStep(s: State, caller: UserId, server: ServerId, limit: Option<int>, minutes: Option<int>): (State, Reply) {
    if !InRange(limit, 1, 100) || !InRange(minutes, 1, 1440) then (s, Refused(422))
    else if !IsAdmin(s, server, caller) then (s, Refused(403))
    else if server !in s.servers then (s, Refused(404))
    else
      var place := s.servers[server];
      (s.(servers := s.servers[server := place.(kickLimit := OrElse(limit, place.kickLimit),
                                                 kickWindowMinutes := OrElse(minutes, place.kickWindowMinutes))]), Done)
  }

  // ---- Kicks and bans ----

  function KickOutStep(s: State, caller: UserId, server: ServerId, target: UserId): (State, Reply) {
    if !IsAdmin(s, server, caller) then (s, Refused(403))
    else if !IsMember(s, server, target) then (s, Refused(404))
    else if IsOwner(s, server, target) then (s, Refused(400))
    else (Drop(s, server, target), Done)
  }

  function BanStep(s: State, caller: UserId, server: ServerId, target: UserId, everyRoomBanned: bool): (State, Reply) {
    if !IsAdmin(s, server, caller) then (s, Refused(403))
    else if server !in s.servers then (s, Refused(404))
    else if target == s.servers[server].owner || IsBanned(s, server, target) then (s, Refused(400))
    else if !everyRoomBanned then (s, Refused(502))
    else (Drop(s.(bans := s.bans + {(server, target)}), server, target), Done)
  }

  function UnbanStep(s: State, caller: UserId, server: ServerId, target: UserId): (State, Reply) {
    if !IsAdmin(s, server, caller) then (s, Refused(403))
    else if !IsBanned(s, server, target) then (s, Refused(404))
    else (s.(bans := s.bans - {(server, target)}), Done)
  }

  // Kick records of a user at a place that are no older than `from`.
  function RecentKicks(kicks: seq<Kick>, server: ServerId, user: UserId, from: real): nat {
    if |kicks| == 0 then 0
    else
      var k := kicks[|kicks| - 1];
      RecentKicks(kicks[..|kicks| - 1], server, user, from) + if k.server == server && k.user == user && k.at >= from then 1 else 0
  }

  function WindowStart(s: State, server: ServerId): real
    requires server in s.servers
  {
    s.clock - 60.0 * (s.servers[server].kickWindowMinutes as real)
  }

  // One more record now fills the limit.
  predicate NextKickBans(s: State, server: ServerId, user: UserId)
    requires server in s.servers
  {
    RecentKicks(s.kicks + [Kick(server, user, s.clock)], server, user, WindowStart(s, server)) >= s.servers[server].kickLimit
  }

  // A recorded kick removes nobody; the one that fills the limit adds a ban.
  function Recorded(s: State, server: ServerId, target: UserId): State
    requires server in s.servers
  {
    s.(kicks := s.kicks + [Kick(server, target, s.clock)],
       bans := if NextKickBans(s, server, target) then s.bans + {(server, target)} else s.bans)
  }

  function RecordKickStep(s: State, caller: UserId, server: ServerId, target: UserId): (State, Reply) {
    if !CanKick(s, server, caller) then (s, Refused(403))
    else if !IsMember(s, server, target) || server !in s.servers then (s, Refused(404))
    else (Recorded(s, server, target), Done)
  }

  // A passed vote records a kick in the same way, whoever its target is by now.
  function ExecuteVoteStep(s: State, server: ServerId, target: UserId): (State, Reply) {
    if server !in s.servers then (s, Refused(404)) else (Recorded(s, server, target), Done)
  }

  function BanEverywhereStep(s: State, instanceAdmin: bool, target: UserId): (State, Reply) {
    if !instanceAdmin then (s, Refused(403))
    else if IsBannedAnywhere(s, target) then (s, Done)
    else (s.(bans := s.bans + {(EVERYWHERE, target)}), Done)
  }

  // Lifts every ban of the user, those of the places too.
  function UnbanEverywhereStep(s: State, instanceAdmin: bool, target: UserId): (State, Reply) {
    if !instanceAdmin then (s, Refused(403)) else (s.(bans := set k | k in s.bans && k.1 != target), Done)
  }

  // ---- Handing on and deleting ----

  // The rows of the new place: the new owner alone is owner, former owners are admins.
  function Inherited(s: State, server: ServerId, newOwner: UserId, newId: ServerId): map<(ServerId, UserId), Row> {
    (map k | k in s.members && k.0 == server ::
       (newId, k.1) := s.members[k].(role := if s.members[k].role == Owner then Admin else s.members[k].role))
      [(newId, newOwner) := OWNER_ROW]
  }

  function RemintStep(s: State, caller: UserId, server: ServerId, newOwner: UserId, encrypted: bool, newId: ServerId): (State, Reply) {
    if server !in s.servers then (s, Refused(404))
    else if s.servers[server].owner != caller then (s, Refused(403))
    else if newOwner == s.servers[server].owner then (s, Refused(400))
    else if encrypted then (s, Refused(501))
    else
      var rows := Inherited(s, server, newOwner, newId);
      if newId == EVERYWHERE || newId in s.servers || !(rows.Keys !! s.members.Keys) then (s, Conflict)
      else (s.(servers := s.servers[newId := s.servers[server].(owner := newOwner)], members := s.members + rows), Done)
  }

  function DeleteStep(s: State, caller: UserId, server: ServerId): (State, Reply) {
    if !IsAdmin(s, server, caller) then (s, Refused(403))
    else if server !in s.servers then (s, Refused(404))
    else (s.(servers := s.servers - {server},
             members := map k | k in s.members && k.0 != server :: s.members[k],
             bans := set k | k in s.bans && k.0 != server), Done)
  }

  function Step(s: State, a: Action): (State, Reply) {
    match a
    case Pass(later) => (if later >= s.clock then s.(clock := later) else s, Done)
    case SeedLobby(newId, botReady, posted) => SeedStep(s, newId, botReady, posted)
    case PostWelcome => PostStep(s)
    case Create(user, newId, isPublic) => NewPlace(s, user, newId, isPublic)
    case Register(user, open, invitedTo) => RegisterStep(s, user, open, invitedTo)
    case ListServers(user, all) => ListStep(s, user, all)
    case Join(user, server) => JoinStep(s, user, server)
    case Redeem(user, server, valid) => RedeemStep(s, user, server, valid)
    case Invite(caller, server, target) => InviteStep(s, caller, server, target)
    case AcceptDirect(user, server) => AcceptStep(s, user, server)
    case DeclineDirect(user, server) => DeclineStep(s, user, server)
    case Leave(user, server) => LeaveStep(s, user, server)
    case UpdateRole(caller, server, target, admin) => UpdateRoleStep(s, caller, server, target, admin)
    case UpdatePermissions(caller, server, target, kick, ban) => UpdatePermissionsStep(s, caller, server, target, kick, ban)
    case SetVisibility(caller, server, isPublic) => SetVisibilityStep(s, caller, server, isPublic)
    case ConfigureKicks(caller, server, limit, minutes) => ConfigureKicksStep(s, caller, server, limit, minutes)
    case KickOut(caller, server, target) => KickOutStep(s, caller, server, target)
    case Ban(caller, server, target, all) => BanStep(s, caller, server, target, all)
    case Unban(caller, server, target) => UnbanStep(s, caller, server, target)
    case RecordKick(caller, server, target) => RecordKickStep(s, caller, server, target)
    case ExecuteVote(server, target) => ExecuteVoteStep(s, server, target)
    case BanEverywhere(instanceAdmin, target) => BanEverywhereStep(s, instanceAdmin, target)
    case UnbanEverywhere(instanceAdmin, target) => UnbanEverywhereStep(s, instanceAdmin, target)
    case Remint(caller, server, newOwner, encrypted, newId) => RemintStep(s, caller, server, newOwner, encrypted, newId)
    case Delete(caller, server) => DeleteStep(s, caller, server)
  }

  function Run(actions: seq<Action>): State {
    if |actions| == 0 then Empty else Step(Run(actions[..|actions| - 1]), actions[|actions| - 1]).0
  }
}

// In every reachable state each place has exactly one owner, and no owner ever changes.
module Ownership {
  import opened Common
  import opened Membership

  // The owner named by the place has an owner row ...
  ghost predicate Owned(s: State, server: ServerId) {
    server in s.servers ==> IsOwner(s, server, s.servers[server].owner)
  }

  // ... and an owner row is always that of the owner named by its place.
  ghost predicate Sole(s: State, k: (ServerId, UserId)) {
    k in s.members && s.members[k].role == Owner ==> k.0 in s.servers && s.servers[k.0].owner == k.1
  }

  ghost predicate OneOwner(s: State) {
    (forall server :: Owned(s, server)) && forall k :: Sole(s, k)
  }

  // A lobby is there only if seeding has left its mark.
  predicate Marked(s: State) {
    s.lobby.Some? ==> s.marks.seeded
  }

  ghost predicate Good(s: State) {
    OneOwner(s) && Marked(s)
  }

  // A registration that is not turned away, and that joins the lobby on its own.
  predicate Completes(s: State, a: Action)
    requires a.Register?
  {
    && (s.marks == Marks(false, false, false) || a.openRegistration || a.invitedTo.Some?)
    && (a.invitedTo.Some? ==> a.invitedTo.value in s.servers && !IsMember(s, a.invitedTo.value, a.user))
  }

  predicate JoinsLobby(s: State, a: Action)
    requires a.Register?
  {
    Completes(s, a) && s.lobby.Some? && a.invitedTo != s.lobby
  }

  // The one transition that would lose the owner: the bot itself taking over its lobby.
  predicate BotTakesItsLobby(s: State, a: Action) {
    a.Register? && a.user == BOT && Promotes(s) && JoinsLobby(s, a)
  }

  lemma LobbyKeepsOneOwner(s: State, user: UserId, promote: bool)
    requires OneOwner(s) && s.lobby.Some?
    requires promote ==> s.lobby.value in s.servers && s.servers[s.lobby.value].owner == BOT && user != BOT
    ensures OneOwner(JoinLobby(s, user, promote))
  {
    var t := JoinLobby(s, user, promote);
    forall server ensures Owned(t, server) { assert Owned(s, server); }
    forall k ensures Sole(t, k) { assert Sole(s, k); }
  }

  // Adding a plain row, or nothing.
  lemma PlainRowKeepsOneOwner(s: State, t: State)
    requires OneOwner(s) && t.servers == s.servers
    requires t.members == s.members
          || exists server, user :: !IsMember(s, server, user) && t.members == Put(s, server, user, PLAIN).members
    ensures OneOwner(t)
  {
    forall server ensures Owned(t, server) { assert Owned(s, server); }
    forall k ensures Sole(t, k) { assert Sole(s, k); }
  }

  lemma RegisterKeepsOneOwner(s: State, a: Action)
    requires OneOwner(s) && a.Register? && !BotTakesItsLobby(s, a)
    ensures OneOwner(Step(s, a).0)
  {
    var t := Step(s, a).0;
    if t == s {
    } else if JoinsLobby(s, a) {
      LobbyKeepsOneOwner(s, a.user, Promotes(s));
      PlainRowKeepsOneOwner(JoinLobby(s, a.user, Promotes(s)), t);
    } else {
      PlainRowKeepsOneOwner(s, t);
    }
  }

  // The rows a re-mint adds are all of the new place, and one of them is an owner's.
  lemma InheritedRows(s: State, server: ServerId, newOwner: UserId, newId: ServerId)
    ensures var rows := Inherited(s, server, newOwner, newId);
            && (forall k :: k in rows ==> k.0 == newId && (rows[k].role == Owner <==> k.1 == newOwner))
            && (forall user :: (newId, user) in rows <==> user == newOwner || IsMember(s, server, user))
  {
  }

  lemma NewRowsKeepOneOwner(s: State, newId: ServerId, place: Server, rows: map<(ServerId, UserId), Row>)
    requires OneOwner(s) && newId !in s.servers && (newId, place.owner) in rows
    requires forall k :: k in rows ==> k.0 == newId && (rows[k].role == Owner <==> k.1 == place.owner)
    ensures OneOwner(s.(servers := s.servers[newId := place], members := s.members + rows))
  {
    var t := s.(servers := s.servers[newId := place], members := s.members + rows);
    forall server ensures Owned(t, server) { assert Owned(s, server); }
    forall k ensures Sole(t, k) { assert Sole(s, k); }
  }

  lemma RemintKeepsOneOwner(s: State, a: Action)
    requires OneOwner(s) && a.Remint?
    ensures OneOwner(Step(s, a).0)
  {
    InheritedRows(s, a.server, a.newOwner, a.newId);
    hide Inherited, OneOwner;
    if Step(s, a).1 == Done {
      NewRowsKeepOneOwner(s, a.newId, s.servers[a.server].(owner := a.newOwner), Inherited(s, a.server, a.newOwner, a.newId));
    }
  }

  lemma OthersKeepOneOwner(s: State, a: Action)
    requires OneOwner(s) && !a.Register? && !a.Remint?
    ensures OneOwner(Step(s, a).0)
  {
    hide RecentKicks;
    var t := Step(s, a).0;
    forall server ensures Owned(t, server) { assert Owned(s, server); }
    forall k ensures Sole(t, k) { assert Sole(s, k); }
  }

  lemma StepKeepsOneOwner(s: State, a: Action)
    requires OneOwner(s) && !BotTakesItsLobby(s, a)
    ensures OneOwner(Step(s, a).0)
  {
    hide OneOwner, Step, Promotes;
    if a.Register? { RegisterKeepsOneOwner(s, a); }
    else if a.Remint? { RemintKeepsOneOwner(s, a); }
    else { OthersKeepOneOwner(s, a); }
  }

  lemma StepKeepsMarked(s: State, a: Action)
    requires Marked(s)
    ensures Marked(Step(s, a).0)
  {
    hide RecentKicks, Inherited;
  }

  lemma StepKeepsGood(s: State, a: Action)
    requires Good(s)
    ensures Good(Step(s, a).0) && !Promotes(s)
  {
    hide OneOwner, Step;
    StepKeepsOneOwner(s, a);
    StepKeepsMarked(s, a);
  }

  lemma {:induction false} RunIsGood(actions: seq<Action>)
    ensures Good(Run(actions))
  {
    if |actions| > 0 {
      hide Good, Step;
      RunIsGood(actions[..|actions| - 1]);
      StepKeepsGood(Run(actions[..|actions| - 1]), actions[|actions| - 1]);
    } else {
      assert Good(Empty);
    }
  }

  // In every reachable state each place has exactly one member row with the role of owner,
  // and it is the row of the owner the place names; no other row of any kind has that role.
  lemma {:induction false} EveryPlaceHasOneOwner(actions: seq<Action>, server: ServerId, user: UserId)
    ensures IsOwner(Run(actions), server, user)
       <==> server in Run(actions).servers && Run(actions).servers[server].owner == user
  {
    RunIsGood(actions);
    assert Owned(Run(actions), server);
    if IsOwner(Run(actions), server, user) { assert Sole(Run(actions), (server, user)); }
  }

  // No request whatever changes the owner of a place: a re-mint makes another place, and the
  // take-over of the lobby never happens.
  lemma {:induction false} OwnersNeverChange(actions: seq<Action>, a: Action, server: ServerId)
    requires server in Run(actions).servers && server in Step(Run(actions), a).0.servers
    ensures Step(Run(actions), a).0.servers[server].owner == Run(actions).servers[server].owner
  {
    RunIsGood(actions);
    StepKeepsGood(Run(actions), a);
    OwnershipMovesOnlyOnFirstBoot(Run(actions), a, server);
  }

  // ---- The take-over of the lobby ----

  // From any state, even one whose settings file was edited by hand: a registration that
  // joins the lobby takes it over exactly when none of the three marks is set and the bot
  // still owns it.
  lemma LobbyChangesHandsIff(s: State, a: Action)
    requires a.Register? && JoinsLobby(s, a) && s.lobby.value in s.servers && s.servers[s.lobby.value].owner != a.user
    ensures Step(s, a).0.servers[s.lobby.value].owner == a.user
       <==> s.marks == Marks(false, false, false) && s.servers[s.lobby.value].owner == BOT
  {
  }

  // But seeding sets one of them with the lobby itself, so no run ever meets that condition ...
  lemma {:induction false} NobodyTakesOverTheLobby(actions: seq<Action>)
    ensures !Promotes(Run(actions))
    ensures Run(actions).lobby.Some? ==> Run(actions).marks != Marks(false, false, false)
  {
    RunIsGood(actions);
  }

  // ... and the first person to register on a seeded instance is a plain member of a lobby
  // that stays the bot's.
  lemma FirstRegistrantIsAPlainMember()
    ensures var s := Run([SeedLobby("lobby", true, true), Register("ann", true, None)]);
            && "lobby" in s.servers && s.servers["lobby"].owner == BOT && IsOwner(s, "lobby", BOT)
            && IsMember(s, "lobby", "ann") && s.members[("lobby", "ann")] == PLAIN
  {
    var one := [SeedLobby("lobby", true, true)];
    var two := [SeedLobby("lobby", true, true), Register("ann", true, None)];
    assert two[..1] == one && one[..0] == [];
    assert Run(one) == Step(Empty, one[0]).0;
    assert Run(two) == Step(Run(one), two[1]).0;
    assert BOT[0] != "ann"[0];
  }

  lemma OthersLeaveOwners(s: State, a: Action, server: ServerId)
    requires !a.Register? && server in s.servers && server in Step(s, a).0.servers
    ensures Step(s, a).0.servers[server].owner == s.servers[server].owner
  {
    hide RecentKicks, Inherited, NextKickBans;
  }

  // An owner changes in one way only, from any state.
  lemma OwnershipMovesOnlyOnFirstBoot(s: State, a: Action, server: ServerId)
    requires server in s.servers && server in Step(s, a).0.servers
    ensures Step(s, a).0.servers[server].owner != s.servers[server].owner ==>
              && a.Register? && s.marks == Marks(false, false, false) && JoinsLobby(s, a) && s.lobby == Some(server)
              && s.servers[server].owner == BOT && Step(s, a).0.servers[server].owner == a.user
  {
    if !a.Register? {
      OthersLeaveOwners(s, a, server);
      hide Step;
    }
  }

  // What a take-over would do where the marks were cleared: the newcomer owns the lobby with
  // every right, and the bot is an admin there with the rights it had.
  lemma FirstBootHandsOverTheLobby(s: State, user: UserId)
    requires OneOwner(s) && Promotes(s) && user != BOT
    ensures var lobby := s.lobby.value; var t := Step(s, Register(user, false, None)).0;
            && t.servers[lobby].owner == user
            && (lobby, user) in t.members && t.members[(lobby, user)] == Row(Owner, true, true)
            && (lobby, BOT) in t.members && t.members[(lobby, BOT)] == s.members[(lobby, BOT)].(role := Admin)
  {
    assert Owned(s, s.lobby.value);
  }

  // From any state with one owner per place, the exact condition for that to stay so. Were
  // the bot itself to take over its lobby, its row would be made the owner's and then, being
  // the bot's, demoted.
  lemma StepKeepsOneOwnerIff(s: State, a: Action)
    requires OneOwner(s)
    ensures OneOwner(Step(s, a).0) <==> !BotTakesItsLobby(s, a)
  {
    if !BotTakesItsLobby(s, a) {
      StepKeepsOneOwner(s, a);
    } else {
      assert !Owned(Step(s, a).0, s.lobby.value);
    }
  }
}
