// Handing a place to a new owner: the channels and the member roster are rebuilt, from a
// snapshot of the old place, on a new one.
module Remint {
  import opened Common
  import Membership

  type UserId = string
  type ChannelId = nat

  datatype MemberRow = MemberRow(user: UserId, role: string, canKick: bool, canBan: bool, displayName: Option<string>)
  datatype ChannelRow = ChannelRow(id: ChannelId, name: string, kind: string, room: string, position: int, extension: Option<string>)

  datatype Snapshot = Snapshot(channels: seq<ChannelRow>, members: seq<MemberRow>)

  datatype Reminted = Reminted(
    channels: seq<ChannelRow>, mapping: map<ChannelId, ChannelId>, roster: seq<MemberRow>, memberCount: nat)
  datatype Failure = SnapshotIncomplete

  const OWNER := "owner"
  const ADMIN := "admin"
  const MEMBER := "member"

  // ---- The roster ----

  function Demoted(role: string): string {
    if role == OWNER then ADMIN else if role == "" then MEMBER else role
  }

  function Carry(m: MemberRow): MemberRow {
    m.(role := Demoted(m.role))
  }

  function OwnerRow(user: UserId): MemberRow {
    MemberRow(user, OWNER, false, false, None)
  }

  function Users(rows: seq<MemberRow>): set<UserId> {
    set m | m in rows :: m.user
  }

  // The rows of users not seen before, each user once.
  function Carried(prior: seq<MemberRow>, seen: set<UserId>): seq<MemberRow> {
    if |prior| == 0 then []
    else if prior[0].user in seen then Carried(prior[1..], seen)
    else [Carry(prior[0])] + Carried(prior[1..], seen + {prior[0].user})
  }

  function NewRoster(prior: seq<MemberRow>, newOwner: UserId): seq<MemberRow> {
    [OwnerRow(newOwner)] + Carried(prior, {newOwner})
  }

  predicate UniqueUsers(rows: seq<MemberRow>) {
    forall i, j :: 0 <= i < j < |rows| ==> rows[i].user != rows[j].user
  }

  lemma {:induction false} CarriedRows(prior: seq<MemberRow>, seen: set<UserId>)
    ensures UniqueUsers(Carried(prior, seen))
    ensures Users(Carried(prior, seen)) == Users(prior) - seen
    ensures forall m :: m in Carried(prior, seen) ==> m.role != OWNER && m.user !in seen
    ensures forall m :: m in Carried(prior, seen) ==> exists o :: o in prior && m == Carry(o)
  {
    if |prior| > 0 {
      var first := prior[0];
      var rest := if first.user in seen then Carried(prior[1..], seen) else Carried(prior[1..], seen + {first.user});
      assert prior == [first] + prior[1..];
      assert Users(prior) == {first.user} + Users(prior[1..]);
      if first.user in seen {
        CarriedRows(prior[1..], seen);
        SourcesStay(rest, prior[1..], prior);
      } else {
        CarriedRows(prior[1..], seen + {first.user});
        SourcesStay(rest, prior[1..], prior);
        ConsUsers(Carry(first), rest);
        assert first in prior && Carry(first).user == first.user;
      }
    }
  }

  lemma SourcesStay(rows: seq<MemberRow>, some: seq<MemberRow>, all: seq<MemberRow>)
    requires forall m :: m in rows ==> exists o :: o in some && m == Carry(o)
    requires forall o :: o in some ==> o in all
    ensures forall m :: m in rows ==> exists o :: o in all && m == Carry(o)
  {
    forall m | m in rows ensures exists o :: o in all && m == Carry(o) {
      var o :| o in some && m == Carry(o);
      assert o in all;
    }
  }

  lemma ConsUsers(m: MemberRow, rest: seq<MemberRow>)
    requires UniqueUsers(rest) && m.user !in Users(rest)
    ensures UniqueUsers([m] + rest) && Users([m] + rest) == {m.user} + Users(rest)
  {
    var all := [m] + rest;
    forall i, j | 0 <= i < j < |all| ensures all[i].user != all[j].user {
      assert all[j] == rest[j - 1] && rest[j - 1].user in Users(rest);
    }
    forall u ensures u in Users(all) <==> u == m.user || u in Users(rest) {
      if u in Users(all) {
        var r :| r in all && r.user == u;
      }
      if u == m.user { assert all[0] == m; }
      if u in Users(rest) {
        var r :| r in rest && r.user == u;
        assert r in all;
      }
    }
  }

  // For every roster whatever: the new one has each prior user and the new owner exactly once,
  // and the new owner as its only owner.
  lemma NewRosterHasEveryoneOnce(prior: seq<MemberRow>, newOwner: UserId)
    ensures var roster := NewRoster(prior, newOwner);
            && UniqueUsers(roster)
            && Users(roster) == Users(prior) + {newOwner}
            && forall m :: m in roster ==> (m.role == "owner" <==> m.user == newOwner)
  {
    CarriedRows(prior, {newOwner});
    ConsUsers(OwnerRow(newOwner), Carried(prior, {newOwner}));
  }

  // The row a member has on the new place: the same user, rights and display name, and the
  // same role, only that an owner becomes an admin and an empty role is a member's.
  lemma CarriedRowIs(o: MemberRow)
    ensures Carry(o) == MemberRow(o.user, if o.role == "owner" then "admin" else if o.role == "" then "member" else o.role,
                                  o.canKick, o.canBan, o.displayName)
  {
  }

  // What a re-mint promises each earlier member, of a roster where users are unique as the
  // database keeps them: the row as it was, only that an owner becomes an admin.
  lemma {:induction false} EveryoneElseIsCarried(prior: seq<MemberRow>, seen: set<UserId>, o: MemberRow)
    requires UniqueUsers(prior) && o in prior && o.user !in seen
    ensures Carry(o) in Carried(prior, seen)
    ensures MemberRow(o.user, if o.role == "owner" then "admin" else if o.role == "" then "member" else o.role,
                      o.canKick, o.canBan, o.displayName) in Carried(prior, seen)
  {
    CarriedRowIs(o);
    if prior[0] != o {
      var i :| 0 <= i < |prior| && prior[i] == o;
      assert prior[1..][i - 1] == o && prior[0].user != o.user;
      EveryoneElseIsCarried(prior[1..], if prior[0].user in seen then seen else seen + {prior[0].user}, o);
    }
  }

  // In order, too: the rest of the new roster is the prior one without the new owner.
  function Without(prior: seq<MemberRow>, user: UserId): seq<MemberRow> {
    if |prior| == 0 then [] else (if prior[0].user == user then [] else [Carry(prior[0])]) + Without(prior[1..], user)
  }

  lemma {:induction false} CarriedInOrder(prior: seq<MemberRow>, seen: set<UserId>, newOwner: UserId)
    requires UniqueUsers(prior) && newOwner in seen
    requires forall m :: m in prior && m.user != newOwner ==> m.user !in seen
    ensures Carried(prior, seen) == Without(prior, newOwner)
  {
    if |prior| > 0 {
      var first, rest := prior[0], prior[1..];
      assert UniqueUsers(rest);
      forall m | m in rest && m.user != newOwner ensures m.user !in seen + {first.user} {
        assert m in prior;
        var i :| 0 <= i < |rest| && rest[i] == m;
        assert prior[i + 1] == m;
      }
      if first.user == newOwner {
        CarriedInOrder(rest, seen, newOwner);
      } else {
        assert first in prior;
        CarriedInOrder(rest, seen + {first.user}, newOwner);
      }
    }
  }

  lemma NewRosterInOrder(prior: seq<MemberRow>, newOwner: UserId)
    requires UniqueUsers(prior)
    ensures NewRoster(prior, newOwner) == [MemberRow(newOwner, "owner", false, false, None)] + Without(prior, newOwner)
  {
    CarriedInOrder(prior, {newOwner}, newOwner);
  }

  // ---- The channels ----

  predicate UniqueIds(channels: seq<ChannelRow>) {
    forall i, j :: 0 <= i < j < |channels| ==> channels[i].id != channels[j].id
  }

  predicate DistinctIds(ids: seq<ChannelId>) {
    forall i, j :: 0 <= i < j < |ids| ==> ids[i] != ids[j]
  }

  // The copy of a channel on the new place: a new identifier and a new room, and nothing of
  // an extension the channel was mounted for.
  function Copied(c: ChannelRow, id: ChannelId, room: string): ChannelRow {
    ChannelRow(id, c.name, c.kind, room, c.position, None)
  }

  // ---- The handler ----

  // `ids` and `rooms` are what the database and the random generator hand out.
  method RemintOwnership(oldChannels: seq<ChannelRow>, oldMembers: seq<MemberRow>, newOwner: UserId,
                         ids: seq<ChannelId>, rooms: seq<string>)
      returns (r: Result<Reminted, Failure>)
    requires UniqueIds(oldChannels) && DistinctIds(ids) && |ids| == |rooms| == |oldChannels|
    ensures r.Ok?
    ensures r.value.roster == NewRoster(oldMembers, newOwner)
    ensures r.value.memberCount == |r.value.roster|
    ensures AreCopies(oldChannels, ids, rooms, r.value.channels)
    ensures Maps(oldChannels, ids, r.value.mapping)
  {
    var snapshot := Snapshot(oldChannels, oldMembers);
    if oldChannels != [] && snapshot.channels == [] {
      assert false;
      return Err(SnapshotIncomplete);
    }
    var channels, mapping := RehydrateChannels(snapshot.channels, ids, rooms);
    if oldMembers != [] && snapshot.members == [] {
      assert false;
      return Err(SnapshotIncomplete);
    }
    var roster, count := RehydrateMembers(snapshot.members, newOwner);
    r := Ok(Reminted(channels, mapping, roster, count));
  }

  predicate AreCopies(prior: seq<ChannelRow>, ids: seq<ChannelId>, rooms: seq<string>, copies: seq<ChannelRow>)
    requires |ids| == |rooms| == |prior|
  {
    |copies| == |prior| && forall i :: 0 <= i < |prior| ==>
      copies[i] == ChannelRow(ids[i], prior[i].name, prior[i].kind, rooms[i], prior[i].position, None)
  }

  // The mapping takes exactly the old identifiers, each to that of its copy.
  ghost predicate Maps(prior: seq<ChannelRow>, ids: seq<ChannelId>, mapping: map<ChannelId, ChannelId>)
    requires |ids| == |prior|
  {
    && (forall i :: 0 <= i < |prior| ==> prior[i].id in mapping && mapping[prior[i].id] == ids[i])
    && (forall id :: id in mapping ==> exists i :: 0 <= i < |prior| && prior[i].id == id)
  }

  // So it is total, and no two old channels are mapped to the same new one.
  lemma MappingIsInjective(prior: seq<ChannelRow>, ids: seq<ChannelId>, mapping: map<ChannelId, ChannelId>)
    requires |ids| == |prior| && UniqueIds(prior) && DistinctIds(ids) && Maps(prior, ids, mapping)
    ensures forall a, b :: a in mapping && b in mapping && mapping[a] == mapping[b] ==> a == b
    ensures |mapping| == |prior|
  {
    forall a, b | a in mapping && b in mapping && mapping[a] == mapping[b] ensures a == b {
      var i :| 0 <= i < |prior| && prior[i].id == a;
      var j :| 0 <= j < |prior| && prior[j].id == b;
      assert ids[i] == ids[j];
    }
    MappingSize(prior, mapping.Keys);
  }

  lemma {:induction false} MappingSize(prior: seq<ChannelRow>, keys: set<ChannelId>)
    requires UniqueIds(prior)
    requires forall id :: id in keys <==> exists i :: 0 <= i < |prior| && prior[i].id == id
    ensures |keys| == |prior|
  {
    if |prior| > 0 {
      var n := |prior| - 1;
      var last := prior[n].id;
      forall id ensures id in keys - {last} <==> exists i :: 0 <= i < n && prior[..n][i].id == id {
        if id in keys - {last} {
          var i :| 0 <= i < |prior| && prior[i].id == id;
          assert prior[..n][i].id == id;
        }
        if i :| 0 <= i < n && prior[..n][i].id == id {
          assert prior[i].id == id;
        }
      }
      MappingSize(prior[..n], keys - {last});
    } else {
      assert keys == {};
    }
  }

  method RehydrateChannels(prior: seq<ChannelRow>, ids: seq<ChannelId>, rooms: seq<string>)
      returns (channels: seq<ChannelRow>, mapping: map<ChannelId, ChannelId>)
    requires UniqueIds(prior) && |ids| == |rooms| == |prior|
    ensures AreCopies(prior, ids, rooms, channels) && Maps(prior, ids, mapping)
  {
    channels, mapping := [], map[];
    for i := 0 to |prior|
      invariant |channels| == i
      invariant forall k :: 0 <= k < i ==> channels[k] == Copied(prior[k], ids[k], rooms[k])
      invariant forall k :: 0 <= k < i ==> prior[k].id in mapping && mapping[prior[k].id] == ids[k]
      invariant forall id :: id in mapping ==> exists k :: 0 <= k < i && prior[k].id == id
    {
      var c := prior[i];
      channels := channels + [Copied(c, ids[i], rooms[i])];
      mapping := mapping[c.id := ids[i]];
    }
  }

  method RehydrateMembers(prior: seq<MemberRow>, newOwner: UserId) returns (roster: seq<MemberRow>, count: nat)
    ensures roster == NewRoster(prior, newOwner) && count == |roster|
  {
    roster := [OwnerRow(newOwner)];
    var seen := {newOwner};
    for i := 0 to |prior|
      invariant roster + Carried(prior[i..], seen) == NewRoster(prior, newOwner)
      invariant |seen| == |roster|
    {
      var m := prior[i];
      assert prior[i..][0] == m && prior[i..][1..] == prior[i + 1..];
      if m.user in seen {
        continue;
      }
      var role := if m.role == "" then MEMBER else m.role;
      var newRole := if role == OWNER then ADMIN else role;
      RowsAssoc(roster, m.(role := newRole), Carried(prior[i + 1..], seen + {m.user}));
      roster := roster + [m.(role := newRole)];
      seen := seen + {m.user};
    }
    count := |seen|;
  }

  lemma RowsAssoc(a: seq<MemberRow>, m: MemberRow, b: seq<MemberRow>)
    ensures (a + [m]) + b == a + ([m] + b)
  {
  }

  // ---- The same rows as in the membership table ----

  function RoleName(role: Membership.Role): string {
    match role
    case Owner => OWNER
    case Admin => ADMIN
    case Member => MEMBER
  }

  predicate SameRow(m: MemberRow, row: Membership.Row) {
    m.role == RoleName(row.role) && m.canKick == row.canKick && m.canBan == row.canBan
  }

  // The rows of one place, listed.
  ghost predicate Lists(rows: seq<MemberRow>, members: map<(string, UserId), Membership.Row>, server: string) {
    && UniqueUsers(rows)
    && (forall m :: m in rows ==> (server, m.user) in members && SameRow(m, members[(server, m.user)]))
    && (forall k :: k in members && k.0 == server ==> k.1 in Users(rows))
  }

  lemma CarriedIsInherited(o: MemberRow, s: Membership.State, server: string, newOwner: UserId, newId: string)
    requires (server, o.user) in s.members && SameRow(o, s.members[(server, o.user)]) && o.user != newOwner
    ensures var rows := Membership.Inherited(s, server, newOwner, newId);
            (newId, o.user) in rows && SameRow(Carry(o), rows[(newId, o.user)])
  {
    var k := (server, o.user);
    assert k in s.members;
  }

  lemma InheritedKeys(s: Membership.State, server: string, newOwner: UserId, newId: string)
    ensures var rows := Membership.Inherited(s, server, newOwner, newId);
            && (newId, newOwner) in rows && rows[(newId, newOwner)] == Membership.OWNER_ROW
            && forall k :: k in rows && k.1 != newOwner ==> (server, k.1) in s.members
  {
  }

  // The loop builds the rows that the membership table gains.
  lemma RosterIsInherited(prior: seq<MemberRow>, s: Membership.State, server: string, newOwner: UserId, newId: string)
    requires Lists(prior, s.members, server)
    ensures Lists(NewRoster(prior, newOwner), Membership.Inherited(s, server, newOwner, newId), newId)
  {
    hide Membership.Inherited;
    var roster := NewRoster(prior, newOwner);
    var rows := Membership.Inherited(s, server, newOwner, newId);
    NewRosterHasEveryoneOnce(prior, newOwner);
    CarriedRows(prior, {newOwner});
    InheritedKeys(s, server, newOwner, newId);
    hide Carried;
    forall m | m in roster ensures (newId, m.user) in rows && SameRow(m, rows[(newId, m.user)]) {
      if m != roster[0] {
        assert m in Carried(prior, {newOwner});
        var o :| o in prior && m == Carry(o);
        CarriedIsInherited(o, s, server, newOwner, newId);
      }
    }
  }
}
