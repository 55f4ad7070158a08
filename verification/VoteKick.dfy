// Votes to kick a member out of a voice room. The voters of each side are kept as one
// comma-joined string, in whatever order a set happens to be iterated.
module VoteKick {
  type UserId = string

  // ---- Voter strings ----

  function Split(s: string): (parts: seq<string>)
    ensures |parts| > 0
  {
    if |s| == 0 then [""]
    else
      var rest := Split(s[1..]);
      if s[0] == ',' then [""] + rest else [[s[0]] + rest[0]] + rest[1..]
  }

  function Voters(s: string): set<UserId> {
    set v | v in Split(s) && v != ""
  }

  function Join(order: seq<UserId>): string {
    if |order| == 0 then "" else if |order| == 1 then order[0] else order[0] + "," + Join(order[1..])
  }

  // An order in which the set may be iterated.
  predicate Iterates(order: seq<UserId>, voters: set<UserId>) {
    |order| == |voters| && voters == set v | v in order
  }

  predicate Plain(user: UserId) {
    user != "" && ',' !in user
  }

  lemma {:induction false} PartsHaveNoCommas(s: string)
    ensures forall p :: p in Split(s) ==> ',' !in p
  {
    if |s| > 0 {
      PartsHaveNoCommas(s[1..]);
      var rest := Split(s[1..]);
      assert rest[0] in rest;
      assert forall p :: p in rest[1..] ==> p in rest;
    }
  }

  lemma {:induction false} SplitFirst(user: UserId, rest: string)
    requires ',' !in user
    ensures Split(user) == [user]
    ensures Split(user + "," + rest) == [user] + Split(rest)
  {
    var all := user + "," + rest;
    if |user| == 0 {
      assert all == "," + rest && all[1..] == rest;
    } else {
      assert user[0] in user && ',' !in user[1..];
      SplitFirst(user[1..], rest);
      assert all == [user[0]] + (user[1..] + "," + rest);
      assert user == [user[0]] + user[1..];
      assert [[user[0]] + user[1..]] + [] == [user];
    }
  }

  lemma {:induction false} JoinedVoters(order: seq<UserId>)
    requires forall u :: u in order ==> ',' !in u
    ensures Voters(Join(order)) == (set u | u in order && u != "")
  {
    if |order| == 0 {
    } else if |order| == 1 {
      SplitFirst(order[0], "");
    } else {
      JoinedVoters(order[1..]);
      SplitFirst(order[0], Join(order[1..]));
      assert order == [order[0]] + order[1..];
      var parts := [order[0]] + Split(Join(order[1..]));
      forall v ensures v in Voters(Join(order)) <==> v in order && v != "" {
        assert v in parts <==> v == order[0] || v in Split(Join(order[1..]));
        assert v in order[1..] && v != "" <==> v in Voters(Join(order[1..]));
      }
    }
  }

  // Whatever the order, the string gives the set back exactly when every identifier is
  // non-empty and free of commas.
  lemma VotersComeBackIff(order: seq<UserId>, voters: set<UserId>)
    requires Iterates(order, voters)
    ensures Voters(Join(order)) == voters <==> forall u :: u in voters ==> Plain(u)
  {
    if forall u :: u in voters ==> Plain(u) {
      assert forall u :: u in order ==> u in voters;
      JoinedVoters(order);
    } else {
      var u :| u in voters && !Plain(u);
      PartsHaveNoCommas(Join(order));
      assert u !in Voters(Join(order));
    }
  }

  // ---- Votes ----

  datatype Status = Active | Failed | Passed | Executed

  datatype Vote = Vote(
    server: string, target: UserId, votesYes: string, votesNo: string, totalEligible: int, status: Status)

  datatype Kick = Kick(server: string, user: UserId, vote: nat)

  // A vote's identifier is its place in the list.
  datatype State = State(votes: seq<Vote>, kicks: seq<Kick>)

  datatype Reply = Fine | AlreadyExecuted | Refused(status: int)

  // `yesOrder` and `noOrder` are how the two sets of voters came out when they were joined.
  datatype Action =
    | Start(user: UserId, server: string, target: UserId, totalEligible: nat, isMember: bool, targetIsMember: bool)
    | Cast(user: UserId, vote: nat, yes: bool, yesOrder: seq<UserId>, noOrder: seq<UserId>)
    | SetEligible(vote: nat, count: nat)
    | Execute(vote: nat, serverExists: bool)

  predicate InProgress(s: State, server: string, target: UserId) {
    exists i :: 0 <= i < |s.votes| && s.votes[i].server == server && s.votes[i].target == target && s.votes[i].status.Active?
  }

  function StartStep(s: State, user: UserId, server: string, target: UserId, total: nat, isMember: bool, targetIsMember: bool): (State, Reply) {
    if !isMember then (s, Refused(403))
    else if target == user then (s, Refused(400))
    else if !targetIsMember then (s, Refused(404))
    else if InProgress(s, server, target) then (s, Refused(400))
    else (s.(votes := s.votes + [Vote(server, target, user, "", total, Active)]), Fine)
  }

  function WithVote(voters: set<UserId>, user: UserId, adds: bool): set<UserId> {
    if adds then voters + {user} else voters
  }

  function Decided(yes: set<UserId>, no: set<UserId>, total: int): Status {
    if no != {} then Failed else if total > 0 && |yes| >= total then Passed else Active
  }

  // The two orders are orders of the sets of voters after this vote.
  predicate JoinsVoters(s: State, a: Action)
    requires a.Cast?
  {
    a.vote < |s.votes| ==>
      && Iterates(a.yesOrder, WithVote(Voters(s.votes[a.vote].votesYes), a.user, a.yes))
      && Iterates(a.noOrder, WithVote(Voters(s.votes[a.vote].votesNo), a.user, !a.yes))
  }

  function CastStep(s: State, a: Action): (State, Reply)
    requires a.Cast?
  {
    if a.vote >= |s.votes| || !s.votes[a.vote].status.Active? then (s, Refused(404))
    else
      var v := s.votes[a.vote];
      var yes, no := Voters(v.votesYes), Voters(v.votesNo);
      if v.target == a.user then (s, Refused(400))
      else if a.user in yes || a.user in no then (s, Refused(400))
      else
        var cast := v.(votesYes := Join(a.yesOrder), votesNo := Join(a.noOrder),
                       status := Decided(WithVote(yes, a.user, a.yes), WithVote(no, a.user, !a.yes), v.totalEligible));
        (s.(votes := s.votes[a.vote := cast]), Fine)
  }

  function SetEligibleStep(s: State, vote: nat, count: nat): (State, Reply) {
    if vote >= |s.votes| || !s.votes[vote].status.Active? then (s, Refused(404))
    else (s.(votes := s.votes[vote := s.votes[vote].(totalEligible := count)]), Fine)
  }

  function ExecuteStep(s: State, vote: nat, serverExists: bool): (State, Reply) {
    if vote >= |s.votes| then (s, Refused(404))
    else if s.votes[vote].status.Executed? then (s, AlreadyExecuted)
    else if !s.votes[vote].status.Passed? then (s, Refused(400))
    else if !serverExists then (s, Refused(404))
    else
      var v := s.votes[vote];
      (State(s.votes[vote := v.(status := Executed)], s.kicks + [Kick(v.server, v.target, vote)]), Fine)
  }

  function Step(s: State, a: Action): (State, Reply) {
    match a
    case Start(user, server, target, total, m, t) => StartStep(s, user, server, target, total, m, t)
    case Cast(_, _, _, _, _) => CastStep(s, a)
    case SetEligible(vote, count) => SetEligibleStep(s, vote, count)
    case Execute(vote, exist) => ExecuteStep(s, vote, exist)
  }

  function Run(actions: seq<Action>): State {
    if |actions| == 0 then State([], []) else Step(Run(actions[..|actions| - 1]), actions[|actions| - 1]).0
  }

  // Identifiers are as the homeserver gives them, and sets are joined in some order of theirs.
  ghost predicate Possible(s: State, a: Action) {
    && (a.Start? || a.Cast? ==> Plain(a.user))
    && (a.Cast? ==> JoinsVoters(s, a))
  }

  ghost predicate AllPossible(actions: seq<Action>) {
    |actions| == 0 ||
    var n := |actions| - 1;
    AllPossible(actions[..n]) && Possible(Run(actions[..n]), actions[n])
  }

  // ---- What every run keeps ----

  predicate VoteGood(v: Vote) {
    var yes, no := Voters(v.votesYes), Voters(v.votesNo);
    && yes !! no && v.target !in yes && v.target !in no
    && (forall u :: u in yes + no ==> Plain(u))
    && (v.status.Failed? <==> no != {})
    && (v.status.Passed? || v.status.Executed? ==> 0 < v.totalEligible <= |yes|)
  }

  function KicksOf(kicks: seq<Kick>, vote: nat): nat {
    if |kicks| == 0 then 0 else KicksOf(kicks[..|kicks| - 1], vote) + if kicks[|kicks| - 1].vote == vote then 1 else 0
  }

  predicate KickedOnce(s: State, i: nat) {
    KicksOf(s.kicks, i) == if i < |s.votes| && s.votes[i].status.Executed? then 1 else 0
  }

  // Two votes under way are not about the same member of the same server.
  predicate Apart(s: State, i: nat, j: nat) {
    i < j < |s.votes| && s.votes[i].status.Active? && s.votes[j].status.Active? ==>
      s.votes[i].server != s.votes[j].server || s.votes[i].target != s.votes[j].target
  }

  ghost predicate Inv(s: State) {
    && (forall i :: 0 <= i < |s.votes| ==> VoteGood(s.votes[i]))
    && (forall i: nat :: KickedOnce(s, i))
    && (forall i: nat, j: nat :: Apart(s, i, j))
  }

  lemma StartedIsGood(user: UserId, server: string, target: UserId, total: nat)
    requires Plain(user) && target != user
    ensures VoteGood(Vote(server, target, user, "", total, Active))
  {
    SplitFirst(user, "");
    assert Voters(user) == {user};
    assert Split("") == [""] && Voters("") == {};
  }

  lemma CastIsGood(s: State, a: Action)
    requires a.Cast? && a.vote < |s.votes| && VoteGood(s.votes[a.vote]) && Possible(s, a) && Step(s, a).1.Fine?
    ensures var v, w := s.votes[a.vote], Step(s, a).0.votes[a.vote];
            && VoteGood(w)
            && Voters(w.votesYes) == WithVote(Voters(v.votesYes), a.user, a.yes)
            && Voters(w.votesNo) == WithVote(Voters(v.votesNo), a.user, !a.yes)
  {
    var v := s.votes[a.vote];
    VotersComeBackIff(a.yesOrder, WithVote(Voters(v.votesYes), a.user, a.yes));
    VotersComeBackIff(a.noOrder, WithVote(Voters(v.votesNo), a.user, !a.yes));
  }

  lemma EditedIsGood(v: Vote, w: Vote)
    requires VoteGood(v)
    requires (v.status.Active? && w == v.(totalEligible := w.totalEligible)) || (v.status.Passed? && w == v.(status := Executed))
    ensures VoteGood(w)
  {
  }

  lemma KicksAppend(kicks: seq<Kick>, k: Kick, i: nat)
    ensures KicksOf(kicks + [k], i) == KicksOf(kicks, i) + if k.vote == i then 1 else 0
  {
    assert (kicks + [k])[..|kicks|] == kicks;
  }

  lemma VotesStayGood(s: State, a: Action)
    requires Inv(s) && Possible(s, a)
    ensures forall i :: 0 <= i < |Step(s, a).0.votes| ==> VoteGood(Step(s, a).0.votes[i])
  {
    hide VoteGood, Voters, Iterates;
    var t := Step(s, a).0;
    if a.Start? && Step(s, a).1.Fine? { StartedIsGood(a.user, a.server, a.target, a.totalEligible); }
    if a.Cast? && Step(s, a).1.Fine? { CastIsGood(s, a); }
    if a.SetEligible? && Step(s, a).1.Fine? { EditedIsGood(s.votes[a.vote], t.votes[a.vote]); }
    if a.Execute? && Step(s, a).1.Fine? { EditedIsGood(s.votes[a.vote], t.votes[a.vote]); }
    forall i | 0 <= i < |t.votes| ensures VoteGood(t.votes[i]) {
      if i < |s.votes| { assert VoteGood(s.votes[i]); }
    }
  }

  lemma KicksStayCounted(s: State, a: Action, i: nat)
    requires Inv(s)
    ensures KickedOnce(Step(s, a).0, i)
  {
    assert KickedOnce(s, i);
    if a.Execute? && Step(s, a).1.Fine? {
      KicksAppend(s.kicks, Kick(s.votes[a.vote].server, s.votes[a.vote].target, a.vote), i);
    }
  }

  lemma ActiveStayApart(s: State, a: Action, i: nat, j: nat)
    requires Inv(s)
    ensures Apart(Step(s, a).0, i, j)
  {
    assert Apart(s, i, j);
  }

  lemma StepKeepsInv(s: State, a: Action)
    requires Inv(s) && Possible(s, a)
    ensures Inv(Step(s, a).0)
  {
    hide Step, VoteGood, KickedOnce, Apart;
    VotesStayGood(s, a);
    forall i: nat ensures KickedOnce(Step(s, a).0, i) { KicksStayCounted(s, a, i); }
    forall i: nat, j: nat ensures Apart(Step(s, a).0, i, j) { ActiveStayApart(s, a, i, j); }
  }

  lemma {:induction false} RunKeepsInv(actions: seq<Action>)
    requires AllPossible(actions)
    ensures Inv(Run(actions))
  {
    if |actions| > 0 {
      RunKeepsInv(actions[..|actions| - 1]);
      StepKeepsInv(Run(actions[..|actions| - 1]), actions[|actions| - 1]);
    }
  }

  // ---- What the machine guarantees ----

  // ---- What a vote is about ----

  // A kick record is that of an executed vote, at the vote's server and against its target.
  predicate Filed(s: State, j: nat) {
    j < |s.kicks| ==>
      && s.kicks[j].vote < |s.votes|
      && var v := s.votes[s.kicks[j].vote];
         v.status.Executed? && s.kicks[j].server == v.server && s.kicks[j].user == v.target
  }

  // No step changes what a vote is about, nor anything else of it but by a vote that counts,
  // a number that is set while it is open, and its execution.
  lemma VoteMoves(s: State, a: Action, i: nat)
    requires i < |s.votes|
    ensures i < |Step(s, a).0.votes|
    ensures var v, w := s.votes[i], Step(s, a).0.votes[i];
            && w.server == v.server && w.target == v.target
            && w.totalEligible == (if a.SetEligible? && a.vote == i && v.status.Active? then a.count else v.totalEligible)
            && (CastCounts(s, a, i) || (w.votesYes == v.votesYes && w.votesNo == v.votesNo
                  && w.status == if a.Execute? && a.vote == i && v.status.Passed? && a.serverExists then Executed else v.status))
  {
    hide InProgress, Join, Voters, Decided;
  }

  // A new vote is about the member named, at the server named, with its starter's yes.
  lemma StartedVoteIs(s: State, a: Action)
    requires |Step(s, a).0.votes| > |s.votes| && Possible(s, a)
    ensures a.Start? && |Step(s, a).0.votes| == |s.votes| + 1
    ensures var v := Step(s, a).0.votes[|s.votes|];
            && v.server == a.server && v.target == a.target && v.totalEligible == a.totalEligible && v.status.Active?
            && Voters(v.votesYes) == {a.user} && Voters(v.votesNo) == {}
  {
    hide InProgress, Join;
    SplitFirst(a.user, "");
    assert Voters(a.user) == {a.user} && Split("") == [""];
  }

  lemma StepKeepsFiled(s: State, a: Action, j: nat)
    requires Filed(s, j)
    requires j == |s.kicks| || j < |s.kicks|
    ensures Filed(Step(s, a).0, j)
  {
    hide InProgress, Join, Voters, Decided;
  }

  lemma StepFilesAtMostOne(s: State, a: Action)
    ensures |s.kicks| <= |Step(s, a).0.kicks| <= |s.kicks| + 1
    ensures Step(s, a).0.kicks[..|s.kicks|] == s.kicks
  {
    hide InProgress, Join, Voters, Decided;
  }

  // Over all runs: every kick a vote leaves is recorded against that vote's target at that
  // vote's server, and the vote is executed.
  lemma {:induction false} KicksAreFiledAgainstTheTarget(actions: seq<Action>, j: nat)
    requires j < |Run(actions).kicks|
    ensures var s := Run(actions); var k := s.kicks[j];
            && k.vote < |s.votes| && s.votes[k.vote].status.Executed?
            && k.server == s.votes[k.vote].server && k.user == s.votes[k.vote].target
  {
    var n := |actions| - 1;
    var before := Run(actions[..n]);
    StepFilesAtMostOne(before, actions[n]);
    if j < |before.kicks| { KicksAreFiledAgainstTheTarget(actions[..n], j); }
    StepKeepsFiled(before, actions[n], j);
  }

  // The i-th vote was opened by the n-th action.
  predicate OpenedBy(actions: seq<Action>, n: nat, i: nat) {
    && n < |actions| && actions[n].Start? && actions[n].isMember && actions[n].targetIsMember
    && actions[n].user != actions[n].target && |Run(actions[..n]).votes| == i
  }

  // Over all runs: every vote is about the server and the member that a member named who
  // started it.
  lemma {:induction false} VotesAreAsStarted(actions: seq<Action>, i: nat) returns (n: nat)
    requires i < |Run(actions).votes|
    ensures OpenedBy(actions, n, i)
    ensures Run(actions).votes[i].server == actions[n].server && Run(actions).votes[i].target == actions[n].target
  {
    var last := |actions| - 1;
    var before := actions[..last];
    hide Step;
    if i < |Run(before).votes| {
      VoteMoves(Run(before), actions[last], i);
      n := VotesAreAsStarted(before, i);
      assert before[..n] == actions[..n];
    } else {
      n := last;
      VoteOpensIff(Run(before), actions[last]);
      StartedVoteNames(Run(before), actions[last]);
    }
  }

  lemma StartedVoteNames(s: State, a: Action)
    requires |Step(s, a).0.votes| > |s.votes|
    ensures a.Start? && |Step(s, a).0.votes| == |s.votes| + 1
    ensures Step(s, a).0.votes[|s.votes|].server == a.server && Step(s, a).0.votes[|s.votes|].target == a.target
  {
    hide InProgress, Join, Voters, Decided;
  }

  // Executing again what has been executed says so, and records nothing.
  lemma ExecutedOnlyOnce(s: State, a: Action, again: Action)
    requires a.Execute? && Step(s, a).1.Fine? && again.Execute? && again.vote == a.vote
    ensures Step(Step(s, a).0, again) == (Step(s, a).0, AlreadyExecuted)
    ensures s.votes[a.vote].status.Passed? && |Step(s, a).0.kicks| == |s.kicks| + 1
  {
  }

  // Over all runs: nobody is on both sides and the target is on neither; a vote that passed
  // or was executed met no objection and had as many yes votes as it needed; one "no" fails
  // it; an executed vote, and no other, left exactly one kick record, of its target at its
  // server.
  lemma VotesAreFair(actions: seq<Action>, i: nat)
    requires AllPossible(actions) && i < |Run(actions).votes|
    ensures var v := Run(actions).votes[i]; var yes, no := Voters(v.votesYes), Voters(v.votesNo);
            && yes !! no && v.target !in yes + no
            && (v.status.Failed? <==> no != {})
            && (v.status.Passed? || v.status.Executed? ==> no == {} && 0 < v.totalEligible <= |yes|)
            && KicksOf(Run(actions).kicks, i) == (if v.status.Executed? then 1 else 0)
            && forall j :: 0 <= j < |Run(actions).kicks| && Run(actions).kicks[j].vote == i ==>
                 Run(actions).kicks[j] == Kick(v.server, v.target, i)
  {
    forall j | 0 <= j < |Run(actions).kicks| && Run(actions).kicks[j].vote == i
      ensures Run(actions).kicks[j] == Kick(Run(actions).votes[i].server, Run(actions).votes[i].target, i)
    {
      KicksAreFiledAgainstTheTarget(actions, j);
    }
    RunKeepsInv(actions);
    assert VoteGood(Run(actions).votes[i]) && KickedOnce(Run(actions), i);
  }

  lemma OneActiveVotePerTarget(actions: seq<Action>, i: nat, j: nat)
    requires AllPossible(actions) && i < |Run(actions).votes| && j < |Run(actions).votes|
    requires Run(actions).votes[i].status.Active? && Run(actions).votes[j].status.Active?
    requires Run(actions).votes[i].server == Run(actions).votes[j].server
    requires Run(actions).votes[i].target == Run(actions).votes[j].target
    ensures i == j
  {
    RunKeepsInv(actions);
    assert Apart(Run(actions), i, j) && Apart(Run(actions), j, i);
  }

  // A vote accepted from a user adds that user to one side and decides by the new sides.
  lemma CastAddsOneVoter(actions: seq<Action>, a: Action)
    requires AllPossible(actions) && a.Cast? && Possible(Run(actions), a) && Step(Run(actions), a).1.Fine?
    ensures a.vote < |Run(actions).votes|
    ensures var v, w := Run(actions).votes[a.vote], Step(Run(actions), a).0.votes[a.vote];
            && v.status.Active? && a.user !in Voters(v.votesYes) + Voters(v.votesNo) + {v.target}
            && Voters(w.votesYes) == Voters(v.votesYes) + (if a.yes then {a.user} else {})
            && Voters(w.votesNo) == (if a.yes then {} else {a.user})
            && (w.status.Failed? <==> !a.yes)
            && (w.status.Passed? <==> a.yes && 0 < v.totalEligible <= |Voters(v.votesYes)| + 1)
  {
    RunKeepsInv(actions);
    var v := Run(actions).votes[a.vote];
    assert VoteGood(v);
    CastIsGood(Run(actions), a);
  }

  // What is decided stays decided; only a passed vote moves on, to executed.
  lemma DecisionsAreFinal(s: State, a: Action, i: nat)
    requires i < |s.votes| && !s.votes[i].status.Active?
    ensures i < |Step(s, a).0.votes|
    ensures Step(s, a).0.votes[i] == s.votes[i]
         || (s.votes[i].status.Passed? && a.Execute? && Step(s, a).0.votes[i] == s.votes[i].(status := Executed))
  {
  }

  // A vote that is accepted: the one cast on is active, and its caster is neither its target
  // nor has voted.
  predicate CastCounts(s: State, a: Action, i: nat) {
    && a.Cast? && a.vote == i && i < |s.votes| && s.votes[i].status.Active?
    && a.user !in Voters(s.votes[i].votesYes) + Voters(s.votes[i].votesNo) + {s.votes[i].target}
  }

  // A vote is opened exactly by a member, about another member about whom none is open.
  lemma VoteOpensIff(s: State, a: Action)
    ensures |Step(s, a).0.votes| > |s.votes|
       <==> && a.Start? && a.isMember && a.targetIsMember && a.user != a.target
            && forall i :: 0 <= i < |s.votes| && s.votes[i].status.Active? ==>
                 s.votes[i].server != a.server || s.votes[i].target != a.target
  {
  }

  lemma CastDecides(s: State, a: Action)
    requires a.Cast? && a.vote < |s.votes| && VoteGood(s.votes[a.vote])
    ensures Step(s, a).1.Fine? <==> CastCounts(s, a, a.vote)
    ensures var v, w := s.votes[a.vote], Step(s, a).0.votes[a.vote];
            Step(s, a).1.Fine? ==>
              w.status == if !a.yes then Failed
                          else if 0 < v.totalEligible <= |Voters(v.votesYes)| + 1 then Passed else Active
  {
    hide Join, Voters;
    var v := s.votes[a.vote];
    if a.user !in Voters(v.votesYes) {
      assert |Voters(v.votesYes) + {a.user}| == |Voters(v.votesYes)| + 1;
    }
  }

  // How a vote's outcome comes about, in any state a run can reach.
  lemma StatusMovesIff(s: State, a: Action, i: nat)
    requires Inv(s) && i < |s.votes|
    ensures i < |Step(s, a).0.votes|
    ensures var v, w := s.votes[i], Step(s, a).0.votes[i];
            && (w.status.Failed? && !v.status.Failed? <==> CastCounts(s, a, i) && !a.yes)
            && (w.status.Passed? && !v.status.Passed? <==>
                  CastCounts(s, a, i) && a.yes && 0 < v.totalEligible <= |Voters(v.votesYes)| + 1)
            && (w.status.Executed? && !v.status.Executed? <==>
                  a.Execute? && a.vote == i && v.status.Passed? && a.serverExists)
            && (w.status.Active? ==> v.status.Active?)
  {
    assert VoteGood(s.votes[i]);
    hide InProgress, Join, Voters, VoteGood, CastCounts;
    if a.Cast? && a.vote < |s.votes| {
      assert VoteGood(s.votes[a.vote]);
      CastDecides(s, a);
    }
    OthersCastNothing(s, a, i);
    hide CastStep, Inv;
  }

  lemma OthersCastNothing(s: State, a: Action, i: nat)
    requires i < |s.votes|
    ensures i < |Step(s, a).0.votes|
    ensures CastCounts(s, a, i) ==> a.Cast? && a.vote == i && s.votes[i].status.Active?
    ensures a.Cast? && (a.vote != i || !Step(s, a).1.Fine?) ==> Step(s, a).0.votes[i] == s.votes[i]
  {
    hide InProgress, Join, Voters, Decided;
  }

  // ---- Votes that are open although they have what they need ----

  predicate Overdue(v: Vote) {
    v.status.Active? && 0 < v.totalEligible <= |Voters(v.votesYes)|
  }

  lemma StartedIsOverdueIff(user: UserId, server: string, target: UserId, total: nat)
    requires Plain(user)
    ensures Overdue(Vote(server, target, user, "", total, Active)) <==> total == 1
  {
    SplitFirst(user, "");
    assert Voters(user) == {user};
  }

  lemma CastIsNotOverdue(s: State, a: Action)
    requires a.Cast? && a.vote < |s.votes| && VoteGood(s.votes[a.vote]) && Possible(s, a) && Step(s, a).1.Fine?
    ensures !Overdue(Step(s, a).0.votes[a.vote]) && CastCounts(s, a, a.vote)
  {
    CastIsGood(s, a);
  }

  // An outcome is worked out only when a vote is cast. So a vote is open with all the yes
  // votes it needs exactly if it was started for one voter, if it was just given a number it
  // had reached, or if it was so before and was neither voted on nor given a number since.
  lemma OverdueIff(s: State, a: Action, i: nat)
    requires Inv(s) && Possible(s, a) && i < |Step(s, a).0.votes|
    ensures Overdue(Step(s, a).0.votes[i])
       <==> if i >= |s.votes| then a.totalEligible == 1
            else if a.SetEligible? && a.vote == i && s.votes[i].status.Active?
            then 1 <= a.count <= |Voters(s.votes[i].votesYes)|
            else Overdue(s.votes[i]) && !CastCounts(s, a, i)
  {
    hide InProgress, Join, Voters, VoteGood;
    if a.Start? {
      StartedIsOverdueIff(a.user, a.server, a.target, a.totalEligible);
    }
    if a.Cast? && Step(s, a).1.Fine? {
      assert VoteGood(s.votes[a.vote]);
      CastIsNotOverdue(s, a);
    }
  }

  // Such votes do occur: the smallest.
  lemma EnoughYesVotesMayStayOpen()
    ensures var s := Run([Start("ann", "den", "bob", 1, true, true)]);
            AllPossible([Start("ann", "den", "bob", 1, true, true)]) && |s.votes| == 1 && Overdue(s.votes[0])
  {
    var a := Start("ann", "den", "bob", 1, true, true);
    assert [a][..0] == [];
    assert Run([a]) == Step(State([], []), a).0;
    StartedIsOverdueIff("ann", "den", "bob", 1);
  }

  // ---- The handlers ----

  class VoteTable {
    var votes: seq<Vote>
    var kicks: seq<Kick>

    function Now(): State
      reads this
    {
      State(votes, kicks)
    }

    // What every run keeps.
    ghost predicate Valid()
      reads this
    {
      Inv(Now())
    }

    constructor ()
      ensures Valid() && Now() == Run([])
    {
      votes, kicks := [], [];
    }

    method StartVoteKick(user: UserId, server: string, target: UserId, total: nat, isMember: bool, targetIsMember: bool)
        returns (r: Reply)
      requires Valid() && Plain(user)
      modifies this
      ensures Valid() && (Now(), r) == Step(old(Now()), Start(user, server, target, total, isMember, targetIsMember))
    {
      StepKeepsInv(Now(), Start(user, server, target, total, isMember, targetIsMember));
      hide Inv;
      if !isMember {
        return Refused(403);
      }
      if target == user {
        return Refused(400);
      }
      if !targetIsMember {
        return Refused(404);
      }
      if InProgress(Now(), server, target) {
        return Refused(400);
      }
      votes := votes + [Vote(server, target, user, "", total, Active)];
      r := Fine;
    }

    method CastVoteKick(user: UserId, vote: nat, yes: bool, yesOrder: seq<UserId>, noOrder: seq<UserId>) returns (r: Reply)
      requires Valid() && Possible(Now(), Cast(user, vote, yes, yesOrder, noOrder))
      modifies this
      ensures Valid() && (Now(), r) == Step(old(Now()), Cast(user, vote, yes, yesOrder, noOrder))
    {
      StepKeepsInv(Now(), Cast(user, vote, yes, yesOrder, noOrder));
      hide Inv;
      if vote >= |votes| || !votes[vote].status.Active? {
        return Refused(404);
      }
      var v := votes[vote];
      if v.target == user {
        return Refused(400);
      }
      var yesVoters, noVoters := Voters(v.votesYes), Voters(v.votesNo);
      if user in yesVoters || user in noVoters {
        return Refused(400);
      }
      if yes {
        yesVoters := yesVoters + {user};
      } else {
        noVoters := noVoters + {user};
      }
      v := v.(votesYes := Join(yesOrder), votesNo := Join(noOrder));
      if noVoters != {} {
        v := v.(status := Failed);
      } else if v.totalEligible > 0 && |yesVoters| >= v.totalEligible {
        v := v.(status := Passed);
      }
      votes := votes[vote := v];
      r := Fine;
    }

    method SetVoteEligible(vote: nat, count: nat) returns (r: Reply)
      requires Valid()
      modifies this
      ensures Valid() && (Now(), r) == Step(old(Now()), SetEligible(vote, count))
    {
      StepKeepsInv(Now(), SetEligible(vote, count));
      hide Inv;
      if vote >= |votes| || !votes[vote].status.Active? {
        return Refused(404);
      }
      votes := votes[vote := votes[vote].(totalEligible := count)];
      r := Fine;
    }

    method ExecuteVoteKick(vote: nat, serverExists: bool) returns (r: Reply)
      requires Valid()
      modifies this
      ensures Valid() && (Now(), r) == Step(old(Now()), Execute(vote, serverExists))
    {
      StepKeepsInv(Now(), Execute(vote, serverExists));
      hide Inv;
      if vote >= |votes| {
        return Refused(404);
      }
      if votes[vote].status.Executed? {
        return AlreadyExecuted;
      }
      if !votes[vote].status.Passed? {
        return Refused(400);
      }
      if !serverExists {
        return Refused(404);
      }
      votes := votes[vote := votes[vote].(status := Executed)];
      kicks := kicks + [Kick(votes[vote].server, votes[vote].target, vote)];
      r := Fine;
    }
  }
}
