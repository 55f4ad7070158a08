// The cache of checked access tokens: entries live five minutes, and a full cache is first
// purged of what has expired and then, if that was not enough, of the quarter that would
// expire first. A dictionary keeps its entries in the order they were first put in.
module TokenCache {
  import opened Common

  type Token = string
  type UserId = string

  const CACHE_TTL: real := 300.0
  const CACHE_MAX_SIZE := 1000

  datatype Entry = Entry(token: Token, user: UserId, expires: real)
  type Cache = seq<Entry>

  // A check the homeserver answered: whose token it is, and when the check began.
  datatype Check = Check(token: Token, user: UserId, begun: real)

  datatype State = State(clock: real, cache: Cache, checks: seq<Check>)

  // A request looks its token up, and asks the homeserver on a miss; the answer is stored
  // later, under the time at which the request began.
  datatype Action =
    | Pass(later: real)
    | Store(token: Token, user: UserId, begun: real)

  // ---- The dictionary ----

  function Find(c: Cache, token: Token): Option<Entry> {
    if |c| == 0 then None else if c[0].token == token then Some(c[0]) else Find(c[1..], token)
  }

  function Put(c: Cache, e: Entry): Cache {
    if |c| == 0 then [e] else if c[0].token == e.token then [e] + c[1..] else [c[0]] + Put(c[1..], e)
  }

  function Minus(c: Cache, tokens: set<Token>): Cache {
    if |c| == 0 then [] else (if c[0].token in tokens then [] else [c[0]]) + Minus(c[1..], tokens)
  }

  function Tokens(c: Cache): set<Token> {
    set e | e in c :: e.token
  }

  predicate Distinct(c: Cache) {
    |c| == 0 || (c[0].token !in Tokens(c[1..]) && Distinct(c[1..]))
  }

  // ---- Making room ----

  function Expired(c: Cache, now: real): seq<Token> {
    if |c| == 0 then [] else (if now >= c[0].expires then [c[0].token] else []) + Expired(c[1..], now)
  }

  function Insert(e: Entry, c: Cache): Cache {
    if |c| == 0 then [e] else if e.expires <= c[0].expires then [e] + c else [c[0]] + Insert(e, c[1..])
  }

  // By expiry; among equals the one put in first comes first.
  function ByExpiry(c: Cache): Cache {
    if |c| == 0 then [] else Insert(c[0], ByExpiry(c[1..]))
  }

  // The quarter that expires first, rounded down.
  function Quarter(c: Cache): Cache {
    ByExpiryMembers(c);
    ByExpiry(c)[..|c| / 4]
  }

  function SetOf(tokens: seq<Token>): set<Token> {
    set t | t in tokens
  }

  function Purged(c: Cache, now: real): Cache {
    Minus(c, SetOf(Expired(c, now)))
  }

  function Trimmed(c: Cache): Cache {
    Minus(c, Tokens(Quarter(c)))
  }

  function Room(c: Cache, now: real): Cache {
    if |c| < CACHE_MAX_SIZE then c
    else if |Purged(c, now)| < CACHE_MAX_SIZE then Purged(c, now)
    else Trimmed(Purged(c, now))
  }

  function Step(s: State, a: Action): State {
    match a
    case Pass(later) => if later >= s.clock then s.(clock := later) else s
    case Store(token, user, begun) =>
      if begun > s.clock then s
      else s.(cache := Put(Room(s.cache, begun), Entry(token, user, begun + CACHE_TTL)),
              checks := s.checks + [Check(token, user, begun)])
  }

  function Run(actions: seq<Action>): State {
    if |actions| == 0 then State(0.0, [], []) else Step(Run(actions[..|actions| - 1]), actions[|actions| - 1])
  }

  // What a request for the token is told from memory.
  function HitAt(c: Cache, token: Token, now: real): Option<UserId> {
    match Find(c, token)
    case None => None
    case Some(e) => if now < e.expires then Some(e.user) else None
  }

  function Hit(s: State, token: Token): Option<UserId> {
    HitAt(s.cache, token, s.clock)
  }

  // ---- The parts ----

  lemma {:induction false} MinusMembers(c: Cache, tokens: set<Token>)
    ensures forall e :: e in Minus(c, tokens) <==> e in c && e.token !in tokens
    ensures Distinct(c) ==> Distinct(Minus(c, tokens))
    ensures |Minus(c, tokens)| <= |c|
  {
    if |c| > 0 {
      MinusMembers(c[1..], tokens);
      assert c == [c[0]] + c[1..];
      var rest := Minus(c[1..], tokens);
      assert [] + rest == rest && ([c[0]] + rest)[1..] == rest;
      assert forall t :: t in Tokens(rest) ==> t in Tokens(c[1..]);
    }
  }

  // Taking out k of the tokens of a dictionary leaves k entries fewer.
  lemma {:induction false} MinusLength(c: Cache, tokens: set<Token>)
    requires Distinct(c) && tokens <= Tokens(c)
    ensures |Minus(c, tokens)| == |c| - |tokens|
  {
    if |c| > 0 {
      var first := c[0].token;
      TokensCons(c);
      if first in tokens {
        MinusLength(c[1..], tokens - {first});
        MinusOther(c[1..], tokens, first);
      } else {
        MinusLength(c[1..], tokens);
      }
    }
  }

  lemma TokensCons(c: Cache)
    requires |c| > 0
    ensures Tokens(c) == {c[0].token} + Tokens(c[1..])
  {
    assert c == [c[0]] + c[1..];
  }

  lemma {:induction false} MinusOther(c: Cache, tokens: set<Token>, other: Token)
    requires other !in Tokens(c)
    ensures Minus(c, tokens) == Minus(c, tokens - {other})
  {
    if |c| > 0 {
      assert c[0] in c && forall e :: e in c[1..] ==> e in c;
      MinusOther(c[1..], tokens, other);
    }
  }

  lemma {:induction false} PutMembers(c: Cache, e: Entry)
    requires Distinct(c)
    ensures forall d :: d in Put(c, e) <==> d == e || (d in c && d.token != e.token)
    ensures Distinct(Put(c, e))
    ensures |Put(c, e)| <= |c| + 1
  {
    if |c| > 0 {
      assert c == [c[0]] + c[1..];
      PutMembers(c[1..], e);
      if c[0].token == e.token {
        assert ([e] + c[1..])[1..] == c[1..];
        assert forall d :: d in c[1..] ==> d.token in Tokens(c[1..]);
      } else {
        var rest := Put(c[1..], e);
        assert ([c[0]] + rest)[1..] == rest;
        assert c[0].token !in Tokens(rest);
      }
    }
  }

  lemma {:induction false} FindIs(c: Cache, token: Token)
    ensures Find(c, token).Some? ==> Find(c, token).value in c && Find(c, token).value.token == token
    ensures Find(c, token).None? <==> token !in Tokens(c)
  {
    if |c| > 0 {
      FindIs(c[1..], token);
      assert c == [c[0]] + c[1..] && Tokens(c) == {c[0].token} + Tokens(c[1..]);
    }
  }

  lemma {:induction false} ExpiredTokens(c: Cache, now: real)
    ensures forall t :: t in Expired(c, now) <==> exists e :: e in c && e.token == t && now >= e.expires
  {
    if |c| > 0 {
      ExpiredTokens(c[1..], now);
      assert c == [c[0]] + c[1..];
      forall t ensures t in Expired(c, now) <==> exists e :: e in c && e.token == t && now >= e.expires {
        if t in Expired(c[1..], now) {
          var e :| e in c[1..] && e.token == t && now >= e.expires;
          assert e in c;
        }
      }
    }
  }

  predicate Ascending(c: Cache) {
    forall i, j :: 0 <= i < j < |c| ==> c[i].expires <= c[j].expires
  }

  lemma {:induction false} InsertMembers(e: Entry, c: Cache)
    ensures |Insert(e, c)| == |c| + 1
    ensures forall d :: d in Insert(e, c) <==> d == e || d in c
  {
    if |c| > 0 {
      assert c == [c[0]] + c[1..];
      InsertMembers(e, c[1..]);
    }
  }

  lemma {:induction false} InsertAscends(e: Entry, c: Cache)
    requires Ascending(c)
    ensures Ascending(Insert(e, c))
  {
    if |c| > 0 && e.expires > c[0].expires {
      InsertAscends(e, c[1..]);
      InsertMembers(e, c[1..]);
      var rest := Insert(e, c[1..]);
      var all := [c[0]] + rest;
      forall i, j | 0 <= i < j < |all| ensures all[i].expires <= all[j].expires {
        assert all[j] == rest[j - 1];
        if i == 0 && rest[j - 1] in c[1..] {
          var k :| 0 <= k < |c[1..]| && c[1..][k] == rest[j - 1];
          assert c[k + 1] == rest[j - 1];
        }
        if i == 0 { assert rest[j - 1] in rest; }
      }
    }
  }

  lemma {:induction false} ByExpiryMembers(c: Cache)
    ensures |ByExpiry(c)| == |c|
    ensures forall e :: e in ByExpiry(c) <==> e in c
    ensures Ascending(ByExpiry(c))
  {
    if |c| > 0 {
      ByExpiryMembers(c[1..]);
      InsertMembers(c[0], ByExpiry(c[1..]));
      InsertAscends(c[0], ByExpiry(c[1..]));
      assert c == [c[0]] + c[1..];
    }
  }

  // In a dictionary, the first n entries by expiry have n different tokens.
  lemma {:induction false} DistinctCount(c: Cache)
    requires Distinct(c)
    ensures |Tokens(c)| == |c|
  {
    if |c| > 0 {
      DistinctCount(c[1..]);
      assert c == [c[0]] + c[1..] && Tokens(c) == {c[0].token} + Tokens(c[1..]);
    }
  }

  lemma {:induction false} CountDistinct(c: Cache)
    requires |Tokens(c)| == |c|
    ensures Distinct(c)
  {
    if |c| > 0 {
      assert c == [c[0]] + c[1..] && Tokens(c) == {c[0].token} + Tokens(c[1..]);
      TokensAtMost(c[1..]);
      CountDistinct(c[1..]);
    }
  }

  lemma {:induction false} TokensAtMost(c: Cache)
    ensures |Tokens(c)| <= |c|
  {
    if |c| > 0 {
      TokensAtMost(c[1..]);
      assert c == [c[0]] + c[1..] && Tokens(c) == {c[0].token} + Tokens(c[1..]);
    }
  }

  lemma {:induction false} PrefixIsDistinct(c: Cache, n: nat)
    requires Distinct(c) && n <= |c|
    ensures Distinct(c[..n])
  {
    if n > 0 {
      PrefixIsDistinct(c[1..], n - 1);
      assert c[..n][1..] == c[1..][..n - 1];
      assert forall e :: e in c[1..][..n - 1] ==> e in c[1..];
    }
  }

  lemma QuarterCount(c: Cache)
    requires Distinct(c)
    ensures |ByExpiry(c)| == |c|
    ensures |Tokens(Quarter(c))| == |c| / 4 && Tokens(Quarter(c)) <= Tokens(c)
  {
    var sorted := ByExpiry(c);
    ByExpiryMembers(c);
    DistinctCount(c);
    assert Tokens(sorted) == Tokens(c);
    CountDistinct(sorted);
    PrefixIsDistinct(sorted, |c| / 4);
    DistinctCount(Quarter(c));
    assert forall e :: e in Quarter(c) ==> e in sorted;
  }

  // ---- Eviction ----

  // A trim drops a quarter of the entries, rounded down.
  lemma TrimDropsAQuarter(c: Cache)
    requires Distinct(c)
    ensures |Trimmed(c)| == |c| - |c| / 4 && Distinct(Trimmed(c))
    ensures forall e :: e in Trimmed(c) <==> e in c && e.token !in Tokens(Quarter(c))
  {
    QuarterCount(c);
    MinusMembers(c, Tokens(Quarter(c)));
    MinusLength(c, Tokens(Quarter(c)));
  }

  // ... and everything it keeps expires no earlier than anything it drops.
  lemma SurvivorsOutlastTheEvicted(c: Cache, kept: Entry, dropped: Entry)
    requires Distinct(c) && kept in Trimmed(c) && dropped in c && dropped !in Trimmed(c)
    ensures dropped.expires <= kept.expires
  {
    ByExpiryMembers(c);
    TrimDropsAQuarter(c);
    hide Trimmed;
    assert dropped.token in Tokens(Quarter(c));
    var d :| d in Quarter(c) && d.token == dropped.token;
    QuarterIsFirst(c, d, kept);
    SameTokenSameEntry(c, d, dropped);
  }

  lemma QuarterIsFirst(c: Cache, d: Entry, other: Entry)
    requires |ByExpiry(c)| == |c| && Ascending(ByExpiry(c)) && d in Quarter(c)
    requires other in ByExpiry(c) && other.token !in Tokens(Quarter(c))
    ensures d in ByExpiry(c) && d.expires <= other.expires
  {
    var sorted, n := ByExpiry(c), |c| / 4;
    assert forall k :: 0 <= k < n ==> sorted[..n][k] in Quarter(c) && sorted[k] == sorted[..n][k];
    var i :| 0 <= i < n && sorted[i] == d;
    var j :| 0 <= j < |sorted| && sorted[j] == other;
  }

  lemma {:induction false} SameTokenSameEntry(c: Cache, a: Entry, b: Entry)
    requires Distinct(c) && a in c && b in c && a.token == b.token
    ensures a == b
  {
    assert c == [c[0]] + c[1..];
    assert forall e :: e in c[1..] ==> e.token in Tokens(c[1..]);
    if a in c[1..] && b in c[1..] { SameTokenSameEntry(c[1..], a, b); }
  }

  // A purge keeps exactly what has not expired.
  lemma PurgeKeepsTheLiving(c: Cache, now: real)
    requires Distinct(c)
    ensures forall e :: e in Purged(c, now) <==> e in c && now < e.expires
    ensures Distinct(Purged(c, now)) && |Purged(c, now)| <= |c|
  {
    var tokens := SetOf(Expired(c, now));
    MinusMembers(c, tokens);
    ExpiredTokens(c, now);
    forall e | e in c ensures e.token in tokens <==> now >= e.expires {
      if e.token in tokens {
        var d :| d in c && d.token == e.token && now >= d.expires;
        SameTokenSameEntry(c, d, e);
      }
    }
  }

  lemma RoomIsMade(c: Cache, now: real)
    requires Distinct(c) && |c| <= CACHE_MAX_SIZE
    ensures Distinct(Room(c, now)) && |Room(c, now)| < CACHE_MAX_SIZE
    ensures forall e :: e in Room(c, now) ==> e in c
  {
    PurgeKeepsTheLiving(c, now);
    TrimDropsAQuarter(Purged(c, now));
  }

  // ---- Every run ----

  ghost predicate Vouched(s: State, e: Entry) {
    Check(e.token, e.user, e.expires - CACHE_TTL) in s.checks && e.expires - CACHE_TTL <= s.clock
  }

  ghost predicate Inv(s: State) {
    Distinct(s.cache) && |s.cache| <= CACHE_MAX_SIZE && forall e :: e in s.cache ==> Vouched(s, e)
  }

  lemma StepKeepsInv(s: State, a: Action)
    requires Inv(s)
    ensures Inv(Step(s, a))
  {
    if a.Store? && a.begun <= s.clock {
      var room, e := Room(s.cache, a.begun), Entry(a.token, a.user, a.begun + CACHE_TTL);
      RoomIsMade(s.cache, a.begun);
      PutMembers(room, e);
      hide Room, Put, Distinct;
      var t := Step(s, a);
      assert t.checks[|s.checks|] == Check(a.token, a.user, a.begun);
      forall d | d in t.cache ensures Vouched(t, d) {
        if d != e { assert Vouched(s, d); }
      }
    }
  }

  lemma {:induction false} RunKeepsInv(actions: seq<Action>)
    ensures Inv(Run(actions))
  {
    if |actions| > 0 {
      RunKeepsInv(actions[..|actions| - 1]);
      StepKeepsInv(Run(actions[..|actions| - 1]), actions[|actions| - 1]);
    }
  }

  // The cache never holds more than its maximum.
  lemma CacheStaysSmall(actions: seq<Action>)
    ensures |Run(actions).cache| <= 1000
  {
    RunKeepsInv(actions);
  }

  // Whoever is served from memory is served the user the homeserver gave for that very token,
  // in a check that began less than the time to live ago.
  lemma HitsAreVouchedFor(actions: seq<Action>, token: Token)
    requires Hit(Run(actions), token).Some?
    ensures exists begun :: Check(token, Hit(Run(actions), token).value, begun) in Run(actions).checks
                         && begun <= Run(actions).clock < begun + 300.0
  {
    hide Distinct, Find;
    var s := Run(actions);
    RunKeepsInv(actions);
    FindIs(s.cache, token);
    var e := Find(s.cache, token).value;
    assert Vouched(s, e);
    assert Check(token, e.user, e.expires - CACHE_TTL) in s.checks;
  }

  // A check just stored is found again until it expires, unless it has been replaced or
  // evicted; right after being stored it always is.
  lemma StoredIsFound(actions: seq<Action>, token: Token, user: UserId, begun: real)
    requires begun <= Run(actions).clock < begun + CACHE_TTL
    ensures Hit(Step(Run(actions), Store(token, user, begun)), token) == Some(user)
  {
    var s := Run(actions);
    RunKeepsInv(actions);
    RoomIsMade(s.cache, begun);
    var e := Entry(token, user, begun + CACHE_TTL);
    PutMembers(Room(s.cache, begun), e);
    var c := Put(Room(s.cache, begun), e);
    FindIs(c, token);
    assert e in c && token in Tokens(c);
    SameTokenSameEntry(c, e, Find(c, token).value);
  }

  // ---- What a store costs the others ----

  function Living(c: Cache, now: real): set<Entry> {
    set e | e in c && now < e.expires
  }

  lemma {:induction false} EntriesCount(c: Cache)
    requires Distinct(c)
    ensures |set e | e in c| == |c|
  {
    if |c| > 0 {
      EntriesCount(c[1..]);
      assert c == [c[0]] + c[1..];
      assert forall e :: e in c[1..] ==> e.token in Tokens(c[1..]);
      assert (set e | e in c) == {c[0]} + set e | e in c[1..];
    }
  }

  lemma PurgedCount(c: Cache, now: real)
    requires Distinct(c)
    ensures |Purged(c, now)| == |Living(c, now)|
  {
    PurgeKeepsTheLiving(c, now);
    EntriesCount(Purged(c, now));
    assert (set e | e in Purged(c, now)) == Living(c, now);
  }

  // A store adds its entry, for 300 s from when the request began, and replaces the one of the
  // same token. Any other entry stays as long as there are fewer than 1000; in a full cache
  // it goes if it has expired; and only if all 1000 are alive do others go, a quarter of them,
  // none of which expires later than one that stays.
  lemma StoreKeepsTheRest(actions: seq<Action>, token: Token, user: UserId, begun: real)
    requires begun <= Run(actions).clock
    ensures var c := Run(actions).cache; var after := Run(actions + [Store(token, user, begun)]).cache;
            && Entry(token, user, begun + 300.0) in after
            && (forall e :: e in after && e != Entry(token, user, begun + 300.0) ==> e in c && e.token != token)
            && (|c| < 1000 ==> forall e :: e in c && e.token != token ==> e in after)
            && (|c| == 1000 && |Living(c, begun)| < 1000 ==>
                  forall e :: e in c && e.token != token ==> (e in after <==> begun < e.expires))
            && (|Living(c, begun)| == 1000 ==>
                  && |Room(c, begun)| == 750
                  && (forall e :: e in c && e.token != token ==> (e in after <==> e in Room(c, begun)))
                  && (forall e, d :: e in Room(c, begun) && d in c && d !in Room(c, begun) ==> d.expires <= e.expires))
            && |c| <= 1000
  {
    var c := Run(actions).cache;
    var all := actions + [Store(token, user, begun)];
    assert all[..|actions|] == actions;
    RunKeepsInv(actions);
    RoomIsMade(c, begun);
    PutMembers(Room(c, begun), Entry(token, user, begun + CACHE_TTL));
    PurgedCount(c, begun);
    PurgeKeepsTheLiving(c, begun);
    hide Run, Distinct, Put, Purged, Trimmed;
    if |Living(c, begun)| == 1000 { AllAlive(c, begun); }
  }

  lemma TrimIsFair(c: Cache)
    requires Distinct(c)
    ensures forall e, d :: e in Trimmed(c) && d in c && d !in Trimmed(c) ==> d.expires <= e.expires
  {
    forall e, d | e in Trimmed(c) && d in c && d !in Trimmed(c) ensures d.expires <= e.expires {
      SurvivorsOutlastTheEvicted(c, e, d);
    }
  }

  lemma NothingIsPurged(c: Cache, now: real)
    requires Distinct(c) && |c| <= |Living(c, now)|
    ensures forall e :: e in Purged(c, now) <==> e in c
  {
    PurgeKeepsTheLiving(c, now);
    EntriesCount(c);
    Subset(Living(c, now), set e | e in c);
    hide Purged, Distinct;
    forall e | e in c ensures now < e.expires {
      assert e in Living(c, now);
    }
  }

  lemma AllAlive(c: Cache, begun: real)
    requires Distinct(c) && |Living(c, begun)| == 1000 && |c| <= 1000
    ensures Room(c, begun) == Trimmed(Purged(c, begun)) && |Room(c, begun)| == 750
    ensures forall e :: e in Purged(c, begun) <==> e in c
    ensures forall e, d :: e in Room(c, begun) && d in c && d !in Room(c, begun) ==> d.expires <= e.expires
  {
    PurgedCount(c, begun);
    PurgeKeepsTheLiving(c, begun);
    NothingIsPurged(c, begun);
    TrimDropsAQuarter(Purged(c, begun));
    TrimIsFair(Purged(c, begun));
    hide Purged, Trimmed, Living, Distinct, Quarter, Tokens;
  }

  // A part that is as large as the whole is the whole.
  lemma Subset(part: set<Entry>, whole: set<Entry>)
    requires part <= whole && |whole| <= |part|
    ensures part == whole
  {
    assert |whole - part| == |whole| - |part|;
    assert whole == part + (whole - part);
  }

  // ---- The dictionary as the handler works on it ----

  class TokenTable {
    var entries: Cache

    ghost predicate Valid()
      reads this
    {
      Distinct(entries) && |entries| <= CACHE_MAX_SIZE
    }

    constructor ()
      ensures Valid() && entries == []
    {
      entries := [];
    }

    // A user exactly when an unexpired entry names one; a token has at most one entry.
    method Lookup(token: Token, now: real) returns (r: Option<UserId>)
      requires Valid()
      ensures forall user :: r == Some(user) <==> exists e :: e in entries && e.token == token && e.user == user && now < e.expires
      ensures r == HitAt(entries, token, now)
    {
      FindIs(entries, token);
      forall e | e in entries && e.token == token ensures Find(entries, token) == Some(e) {
        SameTokenSameEntry(entries, e, Find(entries, token).value);
      }
      var cached := Find(entries, token);
      if cached.Some? && now < cached.value.expires {
        return Some(cached.value.user);
      }
      r := None;
    }

    method DeleteAll(tokens: seq<Token>)
      modifies this
      ensures entries == Minus(old(entries), SetOf(tokens))
    {
      MinusNothing(entries);
      assert SetOf(tokens[..0]) == {};
      for i := 0 to |tokens|
        invariant entries == Minus(old(entries), SetOf(tokens[..i]))
      {
        assert tokens[..i + 1] == tokens[..i] + [tokens[i]];
        assert SetOf(tokens[..i + 1]) == SetOf(tokens[..i]) + {tokens[i]};
        MinusTwice(old(entries), SetOf(tokens[..i]), {tokens[i]});
        entries := Minus(entries, {tokens[i]});
      }
      assert tokens[..|tokens|] == tokens;
    }

    // Makes room and stores; `begun` is the time at which the request began.
    method Remember(token: Token, user: UserId, begun: real)
      requires Valid()
      modifies this
      ensures Valid()
      ensures entries == Put(Room(old(entries), begun), Entry(token, user, begun + CACHE_TTL))
    {
      RoomIsMade(entries, begun);
      PutMembers(Room(entries, begun), Entry(token, user, begun + CACHE_TTL));
      hide Distinct, Put, Expired, Minus, ByExpiry;
      if |entries| >= CACHE_MAX_SIZE {
        DeleteAll(Expired(entries, begun));
        if |entries| >= CACHE_MAX_SIZE {
          ByExpiryMembers(entries);
          var sortedKeys := TokenList(ByExpiry(entries));
          TokenListIs(ByExpiry(entries), |entries| / 4);
          DeleteAll(sortedKeys[..|sortedKeys| / 4]);
        }
      }
      entries := Put(entries, Entry(token, user, begun + CACHE_TTL));
    }
  }

  function TokenList(c: Cache): (tokens: seq<Token>)
    ensures |tokens| == |c|
  {
    seq(|c|, i requires 0 <= i < |c| => c[i].token)
  }

  lemma TokenListIs(c: Cache, n: nat)
    requires n <= |c|
    ensures SetOf(TokenList(c)[..n]) == Tokens(c[..n])
  {
    forall t ensures t in SetOf(TokenList(c)[..n]) <==> t in Tokens(c[..n]) {
      if t in TokenList(c)[..n] {
        var i :| 0 <= i < n && TokenList(c)[i] == t;
        assert c[..n][i] in c[..n];
      }
      if t in Tokens(c[..n]) {
        var e :| e in c[..n] && e.token == t;
        var i :| 0 <= i < n && c[..n][i] == e;
        assert TokenList(c)[..n][i] == t;
      }
    }
  }

  lemma {:induction false} MinusNothing(c: Cache)
    ensures Minus(c, {}) == c
  {
    if |c| > 0 {
      MinusNothing(c[1..]);
      assert c == [c[0]] + c[1..];
    }
  }

  lemma {:induction false} MinusTwice(c: Cache, a: set<Token>, b: set<Token>)
    ensures Minus(Minus(c, a), b) == Minus(c, a + b)
  {
    if |c| > 0 {
      MinusTwice(c[1..], a, b);
      var rest := Minus(c[1..], a);
      assert [] + rest == rest && ([c[0]] + rest)[1..] == rest && ([c[0]] + rest)[0] == c[0];
    }
  }
}
