// The channels of one place and the positions that order them in the sidebar.
module ChannelOrder {
  import opened Common
  import Toml

  type ChannelId = nat

  datatype Channel = Channel(id: ChannelId, name: string, kind: string, position: int)

  type Table = seq<Channel>

  const WELCOME := "welcome"
  const APP := "app"

  datatype Action =
    | Create(id: ChannelId, name: string, kind: string)
    | Rename(id: ChannelId, name: string)
    | Delete(id: ChannelId)
    | EnsureWelcome(id: ChannelId)
    | Reorder(order: seq<ChannelId>)
    | Remint(ids: seq<ChannelId>)

  // The lobby as it is seeded; any other place starts with one channel.
  const SEED: Table := [
    Channel(1, "welcome", "text", 0),
    Channel(2, "general", "text", 1),
    Channel(3, "off-topic", "text", 2),
    Channel(4, "introductions", "text", 3),
    Channel(5, "media-sharing", "text", 4),
    Channel(6, "hangout", "voice", 5),
    Channel(7, "music-lounge", "voice", 6)
  ]

  function Fresh(id: ChannelId): Table {
    [Channel(id, "general", "text", 0)]
  }

  // ---- The handlers ----

  predicate HasId(t: Table, id: ChannelId) {
    exists i :: 0 <= i < |t| && t[i].id == id
  }

  predicate HasName(t: Table, name: string) {
    exists i :: 0 <= i < |t| && t[i].name == name
  }

  // One more than the highest position; the first channel gets 0.
  function Highest(t: Table): int
    requires |t| > 0
  {
    if |t| == 1 then t[0].position
    else if t[0].position >= Highest(t[1..]) then t[0].position else Highest(t[1..])
  }

  function NextPosition(t: Table): int {
    if |t| == 0 then 0 else Highest(t) + 1
  }

  function Removed(t: Table, id: ChannelId): Table {
    if |t| == 0 then [] else (if t[0].id == id then [] else [t[0]]) + Removed(t[1..], id)
  }

  function Shifted(t: Table): Table {
    seq(|t|, i requires 0 <= i < |t| => t[i].(position := t[i].position + 1))
  }

  function Ids(t: Table): set<ChannelId> {
    set c | c in t :: c.id
  }

  function IndexOf(order: seq<ChannelId>, id: ChannelId): int {
    if |order| == 0 then 0 else if order[0] == id then 0 else 1 + IndexOf(order[1..], id)
  }

  function Renumbered(t: Table, order: seq<ChannelId>): Table {
    seq(|t|, i requires 0 <= i < |t| => if t[i].id in order then t[i].(position := IndexOf(order, t[i].id)) else t[i])
  }

  predicate NoRepeats(order: seq<ChannelId>) {
    forall i, j :: 0 <= i < j < |order| ==> order[i] != order[j]
  }

  predicate Accepts(t: Table, order: seq<ChannelId>) {
    NoRepeats(order) && (set id | id in order) == Ids(t)
  }

  function Renamed(t: Table, ids: seq<ChannelId>): Table
    requires |ids| == |t|
  {
    seq(|t|, i requires 0 <= i < |t| => t[i].(id := ids[i]))
  }

  function Named(t: Table, id: ChannelId, name: string): Table {
    seq(|t|, i requires 0 <= i < |t| => if t[i].id == id then t[i].(name := name) else t[i])
  }

  // An identifier the database would not hand out changes nothing, nor does an empty name.
  function Step(t: Table, a: Action): Table {
    match a
    case Create(id, name, kind) => if HasId(t, id) then t else t + [Channel(id, name, kind, NextPosition(t))]
    case Rename(id, name) => if name == "" then t else Named(t, id, name)
    case Delete(id) => Removed(t, id)
    case EnsureWelcome(id) => if HasName(t, WELCOME) || HasId(t, id) then t else Shifted(t) + [Channel(id, WELCOME, "text", 0)]
    case Reorder(order) => if Accepts(t, order) then Renumbered(t, order) else t
    case Remint(ids) => if |ids| == |t| && NoRepeats(ids) then Renamed(t, ids) else t
  }

  function Run(first: Table, actions: seq<Action>): Table {
    if |actions| == 0 then first else Step(Run(first, actions[..|actions| - 1]), actions[|actions| - 1])
  }

  // ---- What every run keeps ----

  ghost predicate Apart(t: Table, i: int, j: int) {
    0 <= i < j < |t| ==> t[i].id != t[j].id && t[i].position != t[j].position
  }

  ghost predicate Good(t: Table) {
    (forall i, j :: Apart(t, i, j)) && forall i :: 0 <= i < |t| ==> t[i].position >= 0
  }

  lemma {:induction false} HighestIsHighest(t: Table)
    requires |t| > 0
    ensures forall i :: 0 <= i < |t| ==> t[i].position <= Highest(t)
  {
    if |t| > 1 {
      HighestIsHighest(t[1..]);
      assert forall i :: 0 < i < |t| ==> t[i] == t[1..][i - 1];
    }
  }

  lemma {:induction false} RemovedRows(t: Table, id: ChannelId)
    ensures forall c :: c in Removed(t, id) <==> c in t && c.id != id
    ensures Good(t) ==> Good(Removed(t, id))
    decreases |t|
  {
    if |t| > 0 {
      RemovedRows(t[1..], id);
      var rest := Removed(t[1..], id);
      assert t == [t[0]] + t[1..];
      if Good(t) {
        TailIsGood(t);
        if t[0].id != id {
          forall c | c in rest ensures c.id != t[0].id && c.position != t[0].position {
            var i :| 0 <= i < |t[1..]| && t[1..][i] == c;
            assert t[i + 1] == c && Apart(t, 0, i + 1);
          }
          ConsIsGood(t[0], rest);
        } else {
          assert [] + rest == rest;
        }
      }
    }
  }

  lemma TailIsGood(t: Table)
    requires Good(t) && |t| > 0
    ensures Good(t[1..])
  {
    var u := t[1..];
    forall i, j ensures Apart(u, i, j) { assert Apart(t, i + 1, j + 1); }
  }

  lemma ConsIsGood(c: Channel, t: Table)
    requires Good(t) && c.position >= 0
    requires forall d :: d in t ==> d.id != c.id && d.position != c.position
    ensures Good([c] + t)
  {
    var u := [c] + t;
    forall i, j ensures Apart(u, i, j) {
      if 0 < i { assert Apart(t, i - 1, j - 1); }
      if 0 == i < j < |u| { assert u[j] == t[j - 1] && t[j - 1] in t; }
    }
  }

  lemma AppendIsGood(t: Table, c: Channel)
    requires Good(t) && c.position >= 0
    requires forall d :: d in t ==> d.id != c.id && d.position != c.position
    ensures Good(t + [c])
  {
    var u := t + [c];
    forall i, j ensures Apart(u, i, j) {
      assert Apart(t, i, j);
      if 0 <= i < j == |t| { assert t[i] in t; }
    }
  }

  lemma ShiftedIsGood(t: Table)
    requires Good(t)
    ensures Good(Shifted(t))
  {
    forall i, j ensures Apart(Shifted(t), i, j) { assert Apart(t, i, j); }
  }

  lemma {:induction false} IndexOfIs(order: seq<ChannelId>, id: ChannelId)
    requires id in order
    ensures 0 <= IndexOf(order, id) < |order| && order[IndexOf(order, id)] == id
  {
    if order[0] != id { IndexOfIs(order[1..], id); }
  }

  lemma RenumberedIsGood(t: Table, order: seq<ChannelId>)
    requires Good(t) && Accepts(t, order)
    ensures Good(Renumbered(t, order))
  {
    var u := Renumbered(t, order);
    forall i | 0 <= i < |t| ensures t[i].id in order && 0 <= u[i].position < |order| && order[u[i].position] == t[i].id {
      assert t[i] in t && t[i].id in Ids(t);
      IndexOfIs(order, t[i].id);
    }
    forall i, j ensures Apart(u, i, j) { assert Apart(t, i, j); }
  }

  lemma StepKeepsGood(t: Table, a: Action)
    requires Good(t)
    ensures Good(Step(t, a))
  {
    match a
    case Create(id, name, kind) =>
      if !HasId(t, id) {
        if |t| > 0 { HighestIsHighest(t); }
        AppendIsGood(t, Channel(id, name, kind, NextPosition(t)));
      }
    case Rename(id, name) =>
      forall i, j ensures Apart(Named(t, id, name), i, j) { assert Apart(t, i, j); }
    case Delete(id) => RemovedRows(t, id);
    case EnsureWelcome(id) =>
      if !HasName(t, WELCOME) && !HasId(t, id) {
        ShiftedIsGood(t);
        AppendIsGood(Shifted(t), Channel(id, WELCOME, "text", 0));
      }
    case Reorder(order) => if Accepts(t, order) { RenumberedIsGood(t, order); }
    case Remint(ids) =>
      if |ids| == |t| && NoRepeats(ids) {
        forall i, j ensures Apart(Renamed(t, ids), i, j) { assert Apart(t, i, j); }
      }
  }

  // In every reachable state the positions of a place are pairwise different and not negative.
  lemma {:induction false} PositionsStayDistinct(first: Table, actions: seq<Action>)
    requires first == SEED || exists id :: first == Fresh(id)
    ensures Good(Run(first, actions))
  {
    if |actions| > 0 {
      PositionsStayDistinct(first, actions[..|actions| - 1]);
      StepKeepsGood(Run(first, actions[..|actions| - 1]), actions[|actions| - 1]);
    } else {
      assert forall i, j :: Apart(first, i, j);
    }
  }

  // ---- What the sidebar shows ----

  function Insert(c: Channel, shown: Table): Table {
    if |shown| == 0 then [c] else if c.position <= shown[0].position then [c] + shown else [shown[0]] + Insert(c, shown[1..])
  }

  // The table sorted by position.
  function Shown(t: Table): Table {
    if |t| == 0 then [] else Insert(t[0], Shown(t[1..]))
  }

  predicate Ascending(t: Table) {
    forall i, j :: 0 <= i < j < |t| ==> t[i].position < t[j].position
  }

  lemma AscendingCons(c: Channel, rest: Table)
    requires Ascending(rest) && forall d :: d in rest ==> c.position < d.position
    ensures Ascending([c] + rest)
  {
    var all := [c] + rest;
    forall i, j | 0 <= i < j < |all| ensures all[i].position < all[j].position {
      assert all[j] == rest[j - 1] && rest[j - 1] in rest;
    }
  }

  lemma FirstIsLowest(t: Table)
    requires Ascending(t) && |t| > 0
    ensures Ascending(t[1..])
    ensures forall d :: d in t[1..] ==> t[0].position < d.position
  {
    forall d | d in t[1..] ensures t[0].position < d.position {
      var i :| 0 <= i < |t[1..]| && t[1..][i] == d;
      assert t[i + 1] == d;
    }
  }

  lemma {:induction false} InsertKeepsAscending(c: Channel, shown: Table)
    requires Ascending(shown) && forall d :: d in shown ==> d.position != c.position
    ensures Ascending(Insert(c, shown))
    ensures forall d :: d in Insert(c, shown) <==> d == c || d in shown
  {
    if |shown| > 0 {
      assert shown == [shown[0]] + shown[1..] && shown[0] in shown;
      FirstIsLowest(shown);
      if c.position > shown[0].position {
        InsertKeepsAscending(c, shown[1..]);
        AscendingCons(shown[0], Insert(c, shown[1..]));
      } else {
        AscendingCons(c, shown);
      }
    }
  }

  lemma {:induction false} ShownIsAscending(t: Table)
    requires Good(t)
    ensures Ascending(Shown(t))
    ensures forall d :: d in Shown(t) <==> d in t
    decreases |t|
  {
    if |t| > 0 {
      TailIsGood(t);
      ShownIsAscending(t[1..]);
      assert t == [t[0]] + t[1..];
      forall d | d in Shown(t[1..]) ensures d.position != t[0].position {
        var i :| 0 <= i < |t[1..]| && t[1..][i] == d;
        assert t[i + 1] == d && Apart(t, 0, i + 1);
      }
      InsertKeepsAscending(t[0], Shown(t[1..]));
    }
  }

  lemma {:induction false} AscendingIsUnique(a: Table, b: Table)
    requires Ascending(a) && Ascending(b) && forall c :: c in a <==> c in b
    ensures a == b
  {
    assert |b| > 0 ==> b[0] in b;
    if |a| > 0 {
      assert a[0] in b && b[0] in b;
      var i :| 0 <= i < |b| && b[i] == a[0];
      var j :| 0 <= j < |a| && a[j] == b[0];
      assert a[0] == b[0];
      forall c ensures c in a[1..] <==> c in b[1..] {
        TailMembers(a, c);
        TailMembers(b, c);
      }
      AscendingIsUnique(a[1..], b[1..]);
      assert a == [a[0]] + a[1..] && b == [b[0]] + b[1..];
    }
  }

  lemma TailMembers(a: Table, c: Channel)
    requires Ascending(a) && |a| > 0
    ensures c in a[1..] <==> c in a && c != a[0]
  {
    if c in a[1..] {
      var i :| 0 <= i < |a[1..]| && a[1..][i] == c;
      assert a[i + 1] == c;
    }
    if c in a && c != a[0] {
      var i :| 0 <= i < |a| && a[i] == c;
      assert a[1..][i - 1] == c;
    }
  }

  // Whatever ascends and has the rows of the table is what is shown.
  lemma ShownIs(t: Table, d: Table)
    requires Good(t) && Ascending(d) && forall c :: c in d <==> c in t
    ensures Shown(t) == d
  {
    ShownIsAscending(t);
    AscendingIsUnique(Shown(t), d);
  }

  // One more than the highest position there is, and 0 in an empty table.
  predicate IsNextPosition(t: Table, p: int) {
    if t == [] then p == 0
    else (forall c :: c in t ==> c.position < p) && exists c :: c in t && c.position == p - 1
  }

  lemma {:induction false} HighestIsThere(t: Table)
    requires |t| > 0
    ensures exists c :: c in t && c.position == Highest(t)
  {
    if |t| > 1 { HighestIsThere(t[1..]); }
    assert t == [t[0]] + t[1..] && t[0] in t;
  }

  lemma NextPositionIs(t: Table)
    ensures IsNextPosition(t, NextPosition(t))
  {
    if |t| > 0 {
      HighestIsHighest(t);
      HighestIsThere(t);
    }
  }

  // A new channel is shown last.
  lemma CreatedIsLast(t: Table, a: Action)
    requires Good(t) && a.Create? && !HasId(t, a.id)
    ensures Shown(Step(t, a)) == Shown(t) + [Channel(a.id, a.name, a.kind, NextPosition(t))]
    ensures IsNextPosition(t, NextPosition(t))
  {
    NextPositionIs(t);
    var c := Channel(a.id, a.name, a.kind, NextPosition(t));
    StepKeepsGood(t, a);
    ShownIsAscending(t);
    if |t| > 0 { HighestIsHighest(t); }
    forall i | 0 <= i < |Shown(t)| ensures Shown(t)[i].position < c.position { assert Shown(t)[i] in t; }
    ShownIs(t + [c], Shown(t) + [c]);
  }

  // The added welcome channel is shown first, before the others as they were.
  lemma WelcomeIsFirst(t: Table, a: Action)
    requires Good(t) && a.EnsureWelcome? && !HasName(t, WELCOME) && !HasId(t, a.id)
    ensures Shown(Step(t, a)) == [Channel(a.id, "welcome", "text", 0)] + Shifted(Shown(t))
    ensures |Shifted(Shown(t))| == |Shown(t)|
    ensures forall k :: 0 <= k < |Shown(t)| ==>
              Shifted(Shown(t))[k] == Channel(Shown(t)[k].id, Shown(t)[k].name, Shown(t)[k].kind, Shown(t)[k].position + 1)
  {
    var w := Channel(a.id, WELCOME, "text", 0);
    StepKeepsGood(t, a);
    ShownIsAscending(t);
    ShiftedMembers(t, Shown(t));
    ShiftedAscends(Shown(t));
    AscendingCons(w, Shifted(Shown(t)));
    ShownIs(Shifted(t) + [w], [w] + Shifted(Shown(t)));
  }

  // It is added exactly where no channel has that name.
  lemma WelcomeComesIff(t: Table, id: ChannelId)
    requires !HasId(t, id)
    ensures Step(t, EnsureWelcome(id)) == t <==> exists c :: c in t && c.name == "welcome"
  {
    assert forall i :: 0 <= i < |t| ==> t[i] in t;
  }

  lemma ShiftedAscends(t: Table)
    requires Ascending(t) && forall c :: c in t ==> c.position >= 0
    ensures Ascending(Shifted(t))
    ensures forall c :: c in Shifted(t) ==> c.position > 0
  {
    forall c | c in Shifted(t) ensures c.position > 0 { ShiftedMember(t, c); }
  }

  lemma ShiftedMembers(a: Table, b: Table)
    requires forall c :: c in a <==> c in b
    ensures forall c :: c in Shifted(a) <==> c in Shifted(b)
  {
    forall c ensures c in Shifted(a) <==> c in Shifted(b) {
      ShiftedMember(a, c);
      ShiftedMember(b, c);
    }
  }

  lemma ShiftedMember(a: Table, c: Channel)
    ensures c in Shifted(a) <==> c.(position := c.position - 1) in a
  {
    var d := c.(position := c.position - 1);
    if c in Shifted(a) {
      var i :| 0 <= i < |a| && Shifted(a)[i] == c;
      assert a[i] == d;
    }
    if d in a {
      var i :| 0 <= i < |a| && a[i] == d;
      assert Shifted(a)[i] == c;
    }
  }

  // Renaming changes the one name where it is shown.
  lemma RenamedInPlace(t: Table, id: ChannelId, name: string)
    requires Good(t) && name != ""
    ensures Shown(Step(t, Rename(id, name))) == Named(Shown(t), id, name)
    ensures var before, after := Shown(t), Shown(Step(t, Rename(id, name)));
            && |after| == |before|
            && forall k :: 0 <= k < |before| ==>
                 after[k] == if before[k].id == id then Channel(id, name, before[k].kind, before[k].position) else before[k]
  {
    var u, d := Named(t, id, name), Named(Shown(t), id, name);
    StepKeepsGood(t, Rename(id, name));
    ShownIsAscending(t);
    forall c ensures c in d <==> c in u {
      NamedMembers(t, Shown(t), id, name, c);
      NamedMembers(Shown(t), t, id, name, c);
    }
    ShownIs(u, d);
  }

  lemma NamedMembers(a: Table, b: Table, id: ChannelId, name: string, c: Channel)
    requires forall r :: r in a ==> r in b
    ensures c in Named(a, id, name) ==> c in Named(b, id, name)
  {
    if c in Named(a, id, name) {
      var i :| 0 <= i < |a| && Named(a, id, name)[i] == c;
      assert a[i] in b;
      var j :| 0 <= j < |b| && b[j] == a[i];
      assert Named(b, id, name)[j] == c;
    }
  }

  // Deleting leaves the others as they were shown.
  lemma DeletedIsGone(t: Table, id: ChannelId)
    requires Good(t)
    ensures Shown(Step(t, Delete(id))) == Removed(Shown(t), id)
    ensures Ascending(Shown(Step(t, Delete(id))))
    ensures forall c :: c in Shown(Step(t, Delete(id))) <==> c in t && c.id != id
  {
    ShownIsAscending(t);
    RemovedRows(t, id);
    RemovedRows(Shown(t), id);
    RemovedAscends(Shown(t), id);
    ShownIs(Removed(t, id), Removed(Shown(t), id));
  }

  lemma {:induction false} RemovedAscends(t: Table, id: ChannelId)
    requires Ascending(t)
    ensures Ascending(Removed(t, id))
  {
    if |t| > 0 {
      FirstIsLowest(t);
      RemovedAscends(t[1..], id);
      RemovedFrom(t[1..], id);
      RemovedCons(t, id);
      hide Ascending, Removed;
      AscendingCons(t[0], Removed(t[1..], id));
    }
  }

  lemma RemovedCons(t: Table, id: ChannelId)
    requires |t| > 0
    ensures Removed(t, id) == if t[0].id == id then Removed(t[1..], id) else [t[0]] + Removed(t[1..], id)
  {
    assert [] + Removed(t[1..], id) == Removed(t[1..], id);
  }

  lemma {:induction false} RemovedFrom(t: Table, id: ChannelId)
    ensures forall c :: c in Removed(t, id) ==> c in t
  {
    if |t| > 0 { RemovedFrom(t[1..], id); }
  }

  // A request is accepted exactly when it lists every channel once ...
  lemma AcceptedIffPermutation(t: Table, order: seq<ChannelId>)
    requires Good(t)
    ensures Accepts(t, order) <==> multiset(order) == multiset(seq(|t|, i requires 0 <= i < |t| => t[i].id))
  {
    var ids := seq(|t|, i requires 0 <= i < |t| => t[i].id);
    assert NoRepeats(ids) by {
      forall i, j | 0 <= i < j < |ids| ensures ids[i] != ids[j] { assert Apart(t, i, j); }
    }
    assert forall id :: id in ids <==> id in Ids(t) by {
      forall id ensures id in ids <==> id in Ids(t) {
        if id in ids { var i :| 0 <= i < |ids| && ids[i] == id; assert t[i] in t; }
        if id in Ids(t) {
          var c :| c in t && c.id == id;
          var i :| 0 <= i < |t| && t[i] == c;
          assert ids[i] == id;
        }
      }
    }
    NoRepeatsCount(ids);
    if Accepts(t, order) {
      NoRepeatsCount(order);
      assert forall id :: id in order <==> id in (set i | i in order);
      assert forall id :: multiset(order)[id] == multiset(ids)[id];
    }
    if multiset(order) == multiset(ids) {
      forall id ensures id in order <==> id in ids { assert id in multiset(order) <==> id in multiset(ids); }
      CountNoRepeats(order, ids);
      assert (set id | id in order) == Ids(t);
    }
  }

  lemma {:induction false} NoRepeatsCount(order: seq<ChannelId>)
    requires NoRepeats(order)
    ensures forall id :: multiset(order)[id] == if id in order then 1 else 0
  {
    if |order| > 0 {
      NoRepeatsCount(order[1..]);
      assert order == [order[0]] + order[1..];
      assert order[0] !in order[1..];
    }
  }

  lemma CountNoRepeats(order: seq<ChannelId>, ids: seq<ChannelId>)
    requires NoRepeats(ids) && multiset(order) == multiset(ids)
    ensures NoRepeats(order)
  {
    NoRepeatsCount(ids);
    forall i, j | 0 <= i < j < |order| ensures order[i] != order[j] { RepeatCountsTwice(order, i, j); }
  }

  lemma RepeatCountsTwice(order: seq<ChannelId>, i: nat, j: nat)
    requires i < j < |order|
    ensures order[i] == order[j] ==> multiset(order)[order[i]] >= 2
  {
    assert order == order[..i] + [order[i]] + order[i + 1..j] + [order[j]] + order[j + 1..];
  }

  // ... and then the channels are shown in the order requested, at positions 0 to n - 1, with
  // nothing else about them changed.
  lemma ReorderedAsRequested(t: Table, order: seq<ChannelId>)
    requires Good(t) && Accepts(t, order)
    ensures var shown := Shown(Step(t, Reorder(order)));
            && |shown| == |order|
            && forall k :: 0 <= k < |order| ==>
                 shown[k].id == order[k] && shown[k].position == k
                 && exists c :: c in t && shown[k] == c.(position := k)
  {
    var u := Renumbered(t, order);
    RenumberedIsGood(t, order);
    var d := seq(|order|, k requires 0 <= k < |order| => RowAt(t, order, k));
    forall c ensures c in d <==> c in u { SameRows(t, order, d, c); }
    ShownIs(u, d);
  }

  function RowAt(t: Table, order: seq<ChannelId>, k: nat): (c: Channel)
    requires Accepts(t, order) && k < |order|
    ensures c.id == order[k] && c.position == k && exists r :: r in t && c == r.(position := k)
  {
    assert order[k] in Ids(t);
    RowOf(t, order[k]).(position := k)
  }

  function RowOf(t: Table, id: ChannelId): (c: Channel)
    requires id in Ids(t)
    ensures c in t && c.id == id
  {
    if t[0].id == id then t[0]
    else
      assert id in Ids(t[1..]) by {
        var c :| c in t && c.id == id;
        assert t == [t[0]] + t[1..] && c in t[1..];
      }
      RowOf(t[1..], id)
  }

  lemma RowIsUnique(t: Table, c: Channel)
    requires Good(t) && c in t
    ensures c.id in Ids(t) && RowOf(t, c.id) == c
  {
    var r := RowOf(t, c.id);
    var i :| 0 <= i < |t| && t[i] == c;
    var j :| 0 <= j < |t| && t[j] == r;
    assert Apart(t, i, j) && Apart(t, j, i);
  }

  lemma SameRows(t: Table, order: seq<ChannelId>, d: Table, c: Channel)
    requires Good(t) && Accepts(t, order) && |d| == |order|
    requires forall k :: 0 <= k < |order| ==> d[k] == RowAt(t, order, k)
    ensures c in d <==> c in Renumbered(t, order)
  {
    var u := Renumbered(t, order);
    if c in d {
      var k :| 0 <= k < |d| && d[k] == c;
      var r := RowOf(t, order[k]);
      var i :| 0 <= i < |t| && t[i] == r;
      IndexOfIs(order, order[k]);
      assert IndexOf(order, order[k]) == k;
      assert u[i] == c;
    }
    if c in u {
      var i :| 0 <= i < |u| && u[i] == c;
      assert t[i] in t && t[i].id in Ids(t);
      IndexOfIs(order, t[i].id);
      RowIsUnique(t, t[i]);
      assert d[IndexOf(order, t[i].id)] == c;
    }
  }

  function RowIndex(t: Table, c: Channel): (i: nat)
    requires c in t
    ensures i < |t| && t[i] == c
  {
    if t[0] == c then 0 else 1 + RowIndex(t[1..], c)
  }

  lemma RowIndexIs(t: Table, i: nat)
    requires Good(t) && i < |t|
    ensures RowIndex(t, t[i]) == i
  {
    var j := RowIndex(t, t[i]);
    assert Apart(t, i, j) && Apart(t, j, i);
  }

  // A re-minted place shows the same channels at the same positions in the same order, under
  // their new identifiers.
  lemma RemintShowsTheSame(t: Table, ids: seq<ChannelId>)
    requires Good(t) && |ids| == |t| && NoRepeats(ids)
    ensures var before, after := Shown(t), Shown(Step(t, Remint(ids)));
            |after| == |before| && forall k :: 0 <= k < |before| ==>
              before[k] in t && after[k] == before[k].(id := ids[RowIndex(t, before[k])])
  {
    var u := Renamed(t, ids);
    StepKeepsGood(t, Remint(ids));
    ShownIsAscending(t);
    var shown := Shown(t);
    assert forall k :: 0 <= k < |shown| ==> shown[k] in t;
    var d := seq(|shown|, k requires 0 <= k < |shown| => u[RowIndex(t, shown[k])]);
    forall c ensures c in d <==> c in u {
      if c in u {
        var i :| 0 <= i < |u| && u[i] == c;
        assert t[i] in shown;
        var k :| 0 <= k < |shown| && shown[k] == t[i];
        RowIndexIs(t, i);
        assert d[k] == c;
      }
    }
    ShownIs(u, d);
  }

  // ---- The table the handlers work on ----

  // `base`, then `base 2`, `base 3`, ...
  function Candidate(base: string, n: nat): string {
    if n <= 1 then base else base + " " + Toml.Decimal(n)
  }

  lemma CandidateNames(base: string)
    ensures Candidate(base, 1) == base && Candidate(base, 2) == base + " 2"
    ensures Candidate(base, 10) == base + " 10" && Candidate(base, 99) == base + " 99"
  {
    assert Toml.Decimal(2) == "2" && Toml.Decimal(10) == "1" + "0" && Toml.Decimal(99) == "9" + "9";
    assert base + " " + "2" == base + " 2" && base + " " + "10" == base + " 10" && base + " " + "99" == base + " 99";
  }

  function Names(t: Table): set<string> {
    set c | c in t :: c.name
  }

  lemma NamedRow(t: Table, name: string)
    ensures name in Names(t) <==> HasName(t, name)
  {
    if name in Names(t) {
      var c :| c in t && c.name == name;
      var i :| 0 <= i < |t| && t[i] == c;
    }
    assert forall i :: 0 <= i < |t| ==> t[i] in t;
  }

  predicate AllTaken(base: string, n: nat, existing: set<string>) {
    forall m :: 1 <= m < n ==> Candidate(base, m) in existing
  }

  predicate FirstFree(t: Table, base: string, n: nat) {
    1 <= n < 100 && !HasName(t, Candidate(base, n)) && forall m :: 1 <= m < n ==> HasName(t, Candidate(base, m))
  }

  // The first free candidate; the hundredth is never taken.
  method FreeName(base: string, existing: set<string>) returns (r: Option<string>)
    ensures r.None? <==> forall n :: 1 <= n < 100 ==> Candidate(base, n) in existing
    ensures r.Some? ==> r.value !in existing
    ensures r.Some? ==> exists n :: 1 <= n < 100 && r.value == Candidate(base, n) && AllTaken(base, n, existing)
  {
    var candidate := base;
    var suffix := 2;
    while candidate in existing
      invariant 2 <= suffix <= 100 && candidate == Candidate(base, suffix - 1)
      invariant forall n :: 1 <= n < suffix - 1 ==> Candidate(base, n) in existing
      decreases 100 - suffix
    {
      candidate := base + " " + Toml.Decimal(suffix);
      suffix := suffix + 1;
      if suffix > 100 {
        return None;
      }
    }
    r := Some(candidate);
  }

  class ChannelTable {
    var rows: Table

    ghost predicate Valid()
      reads this
    {
      Good(rows)
    }

    constructor (first: Table)
      requires Good(first)
      ensures Valid() && rows == first
    {
      rows := first;
    }

    method CreateChannel(id: ChannelId, name: string, kind: string)
      requires Valid() && !HasId(rows, id)
      modifies this
      ensures Valid() && rows == Step(old(rows), Create(id, name, kind))
      ensures Shown(rows) == Shown(old(rows)) + [Channel(id, name, kind, NextPosition(old(rows)))]
    {
      StepKeepsGood(rows, Create(id, name, kind));
      CreatedIsLast(rows, Create(id, name, kind));
      rows := rows + [Channel(id, name, kind, NextPosition(rows))];
    }

    method StartExtension(id: ChannelId, base: string) returns (started: bool)
      requires Valid() && !HasId(rows, id)
      modifies this
      ensures Valid()
      ensures !started ==> rows == old(rows) && forall n :: 1 <= n < 100 ==> HasName(rows, Candidate(base, n))
      ensures started ==> exists n ::
                && FirstFree(old(rows), base, n)
                && rows == Step(old(rows), Create(id, Candidate(base, n), "app"))
                && Shown(rows) == Shown(old(rows)) + [Channel(id, Candidate(base, n), "app", NextPosition(old(rows)))]
    {
      var existing := Names(rows);
      var name := FreeName(base, existing);
      if name.None? {
        forall n | 1 <= n < 100 ensures HasName(rows, Candidate(base, n)) {
          assert Candidate(base, n) in existing;
          NamedRow(rows, Candidate(base, n));
        }
        return false;
      }
      ghost var n :| 1 <= n < 100 && name.value == Candidate(base, n) && AllTaken(base, n, existing);
      NamedRow(rows, name.value);
      forall m | 1 <= m < n ensures HasName(rows, Candidate(base, m)) { NamedRow(rows, Candidate(base, m)); }
      assert FirstFree(rows, base, n);
      CreateChannel(id, name.value, APP);
      started := true;
    }

    // Refuses an empty name; any name that is left of the one sent is taken, in use or not.
    method RenameChannel(id: ChannelId, name: string) returns (ok: bool)
      requires Valid()
      modifies this
      ensures Valid() && rows == Step(old(rows), Rename(id, name))
      ensures ok <==> name != "" && HasId(old(rows), id)
      ensures ok ==> Shown(rows) == Named(Shown(old(rows)), id, name)
    {
      StepKeepsGood(rows, Rename(id, name));
      ok := HasId(rows, id) && name != "";
      if ok {
        RenamedInPlace(rows, id, name);
        rows := Named(rows, id, name);
      } else {
        assert name != "" ==> Named(rows, id, name) == rows;
      }
    }

    method DeleteChannel(id: ChannelId)
      requires Valid()
      modifies this
      ensures Valid() && rows == Step(old(rows), Delete(id))
      ensures Shown(rows) == Removed(Shown(old(rows)), id)
    {
      StepKeepsGood(rows, Delete(id));
      DeletedIsGone(rows, id);
      rows := Removed(rows, id);
    }

    method EnsureLobbyWelcome(id: ChannelId)
      requires Valid() && !HasId(rows, id)
      modifies this
      ensures Valid() && rows == Step(old(rows), EnsureWelcome(id))
      ensures if HasName(old(rows), "welcome") then rows == old(rows)
              else Shown(rows) == [Channel(id, "welcome", "text", 0)] + Shifted(Shown(old(rows)))
    {
      StepKeepsGood(rows, EnsureWelcome(id));
      if !HasName(rows, WELCOME) { WelcomeIsFirst(rows, EnsureWelcome(id)); }
      if HasName(rows, WELCOME) {
        return;
      }
      for i := 0 to |rows|
        invariant |rows| == |old(rows)|
        invariant forall k :: 0 <= k < i ==> rows[k] == Shifted(old(rows))[k]
        invariant forall k :: i <= k < |rows| ==> rows[k] == old(rows)[k]
      {
        rows := rows[i := rows[i].(position := rows[i].position + 1)];
      }
      assert rows == Shifted(old(rows));
      rows := rows + [Channel(id, WELCOME, "text", 0)];
    }

    // Returns the channels as they are shown afterwards, or refuses and changes nothing.
    method ReorderChannels(order: seq<ChannelId>) returns (r: Option<Table>)
      requires Valid()
      modifies this
      ensures Valid() && rows == Step(old(rows), Reorder(order))
      ensures r == if Accepts(old(rows), order) then Some(Shown(rows)) else None
    {
      StepKeepsGood(rows, Reorder(order));
      var requested := set id | id in order;
      if !NoRepeats(order) {
        return None;
      }
      var existing := Ids(rows);
      if requested - existing != {} {
        return None;
      }
      if requested != existing {
        return None;
      }
      var channels := rows;
      for k := 0 to |order|
        invariant |rows| == |channels|
        invariant forall i :: 0 <= i < |rows| ==> rows[i] == PartlyRenumbered(channels[i], order, k)
      {
        assert order[k] in requested;
        var index := RowIndex(channels, RowOf(channels, order[k]));
        SameIndex(channels, order, k, index);
        rows := rows[index := rows[index].(position := k)];
      }
      assert order[..|order|] == order;
      assert rows == Renumbered(old(rows), order);
      r := Some(Shown(rows));
    }
  }

  // A row once the first k identifiers of the request have been numbered.
  function PartlyRenumbered(c: Channel, order: seq<ChannelId>, k: nat): Channel
    requires k <= |order|
  {
    if c.id in order[..k] then c.(position := IndexOf(order, c.id)) else c
  }

  lemma SameIndex(t: Table, order: seq<ChannelId>, k: nat, index: nat)
    requires Good(t) && NoRepeats(order) && k < |order| && index < |t| && t[index].id == order[k]
    ensures forall i :: 0 <= i < |t| ==>
              PartlyRenumbered(t[i], order, k + 1) == if i == index then t[i].(position := k) else PartlyRenumbered(t[i], order, k)
  {
    assert order[..k + 1] == order[..k] + [order[k]];
    IndexOfIs(order, order[k]);
    assert IndexOf(order, order[k]) == k;
    forall i | 0 <= i < |t| && i != index ensures t[i].id != order[k] {
      assert Apart(t, i, index) && Apart(t, index, i);
    }
  }
}
