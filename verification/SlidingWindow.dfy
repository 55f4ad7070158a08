// The sliding-window rate limiters: logins, registrations and disposable nodes (swept every
// so many calls, emptied keys dropped) and webhooks (neither). Clock readings never decrease.
module SlidingWindow {
  import opened Common

  type Key = string
  type Window = seq<real>

  // One check: of which key, when, and whether it was admitted.
  datatype Call = Call(key: Key, at: real, admitted: bool)
  type History = seq<Call>

  // Admission times of one key over the entire history.
  function Admitted(h: History, key: Key): Window {
    if |h| == 0 then []
    else
      var before, c := Admitted(h[..|h| - 1], key), h[|h| - 1];
      if c.key == key && c.admitted then before + [c.at] else before
  }

  function CountFrom(w: Window, cutoff: real): nat {
    if |w| == 0 then 0 else CountFrom(w[..|w| - 1], cutoff) + (if w[|w| - 1] >= cutoff then 1 else 0)
  }

  // The naive rule: fewer than `limit` admissions of this key in the whole history are no
  // older than the window.
  predicate Allowed(limit: nat, window: real, h: History, key: Key, now: real) {
    CountFrom(Admitted(h, key), now - window) < limit
  }

  // Every decision in the history is the naive one.
  predicate Naive(limit: nat, window: real, h: History) {
    |h| == 0 ||
    var before, c := h[..|h| - 1], h[|h| - 1];
    Naive(limit, window, before) && (c.admitted <==> Allowed(limit, window, before, c.key, c.at))
  }

  ghost predicate InClockOrder(h: History) {
    |h| > 1 ==> InClockOrder(h[..|h| - 1]) && h[|h| - 2].at <= h[|h| - 1].at
  }

  ghost predicate Ascending(w: Window) {
    forall i, j :: 0 <= i <= j < |w| ==> w[i] <= w[j]
  }

  // ---- Dropping the expired front of a deque ----

  function DropOld(w: Window, cutoff: real): (kept: Window)
    ensures |kept| <= |w|
  {
    if |w| > 0 && w[0] < cutoff then DropOld(w[1..], cutoff) else w
  }

  lemma {:induction false} DropOldIsSuffix(w: Window, cutoff: real) returns (n: nat)
    ensures n <= |w| && DropOld(w, cutoff) == w[n..]
    ensures forall i :: 0 <= i < n ==> w[i] < cutoff
    ensures n < |w| ==> w[n] >= cutoff
  {
    n := 0;
    if |w| > 0 && w[0] < cutoff {
      var m := DropOldIsSuffix(w[1..], cutoff);
      n := m + 1;
      assert forall i :: 0 < i < n ==> w[i] == w[1..][i - 1];
      if n < |w| { assert w[n] == w[1..][m]; }
    }
  }

  lemma {:induction false} DropOldAgain(w: Window, earlier: real, later: real)
    requires earlier <= later
    ensures DropOld(DropOld(w, earlier), later) == DropOld(w, later)
  {
    if |w| > 0 && w[0] < earlier {
      DropOldAgain(w[1..], earlier, later);
    }
  }

  lemma {:induction false} DropOldAppend(w: Window, cutoff: real, at: real)
    requires cutoff <= at
    ensures DropOld(w + [at], cutoff) == DropOld(w, cutoff) + [at]
  {
    if |w| > 0 && w[0] < cutoff {
      assert (w + [at])[1..] == w[1..] + [at];
      DropOldAppend(w[1..], cutoff, at);
    }
  }

  lemma {:induction false} CountWithoutOld(w: Window, cutoff: real)
    requires Ascending(w)
    ensures CountFrom(w, cutoff) == |DropOld(w, cutoff)|
  {
    var n := DropOldIsSuffix(w, cutoff);
    forall i | n <= i < |w| ensures w[i] >= cutoff {}
    CountSplit(w, cutoff, n);
  }

  lemma {:induction false} CountSplit(w: Window, cutoff: real, n: nat)
    requires n <= |w|
    requires forall i :: 0 <= i < n ==> w[i] < cutoff
    requires forall i :: n <= i < |w| ==> w[i] >= cutoff
    ensures CountFrom(w, cutoff) == |w| - n
  {
    if |w| > 0 {
      CountSplit(w[..|w| - 1], cutoff, if n == |w| then n - 1 else n);
    }
  }

  lemma HistoryGrows(limit: nat, window: real, h: History, c: Call)
    requires Naive(limit, window, h) && InClockOrder(h)
    requires |h| > 0 ==> h[|h| - 1].at <= c.at
    requires c.admitted <==> Allowed(limit, window, h, c.key, c.at)
    ensures Naive(limit, window, h + [c]) && InClockOrder(h + [c])
  {
    assert (h + [c])[..|h|] == h;
  }

  // ---- What a stored deque means ----

  // Up to what no later decision can see, the deque is the key's whole admission history.
  ghost predicate Remembers(h: History, key: Key, stored: Window, cutoff: real) {
    DropOld(stored, cutoff) == DropOld(Admitted(h, key), cutoff)
  }

  lemma {:induction false} AdmittedAscends(h: History, key: Key)
    requires InClockOrder(h)
    ensures Ascending(Admitted(h, key))
    ensures forall i :: 0 <= i < |Admitted(h, key)| ==> Admitted(h, key)[i] <= h[|h| - 1].at
  {
    if |h| > 0 {
      AdmittedAscends(h[..|h| - 1], key);
    }
  }

  lemma RemembersLater(h: History, key: Key, stored: Window, earlier: real, later: real)
    requires Remembers(h, key, stored, earlier) && earlier <= later
    ensures Remembers(h, key, stored, later)
    ensures Remembers(h, key, DropOld(stored, later), later)
  {
    DropOldAgain(stored, earlier, later);
    DropOldAgain(Admitted(h, key), earlier, later);
    DropOldAgain(stored, later, later);
  }

  // The length test on the deque is the naive rule.
  lemma LengthIsCount(limit: nat, window: real, h: History, key: Key, stored: Window, now: real)
    requires InClockOrder(h) && Remembers(h, key, stored, now - window)
    ensures |DropOld(stored, now - window)| < limit <==> Allowed(limit, window, h, key, now)
  {
    AdmittedAscends(h, key);
    CountWithoutOld(Admitted(h, key), now - window);
  }

  lemma RemembersCall(h: History, key: Key, stored: Window, cutoff: real, c: Call)
    requires Remembers(h, key, stored, cutoff) && cutoff <= c.at
    ensures Remembers(h + [c], key, if c.key == key && c.admitted then stored + [c.at] else stored, cutoff)
  {
    assert (h + [c])[..|h|] == h;
    if c.key == key && c.admitted {
      DropOldAppend(stored, cutoff, c.at);
      DropOldAppend(Admitted(h, key), cutoff, c.at);
    }
  }

  // ---- What follows for every limiter ----

  // Two limiters with the same limit and window decide alike on the same calls, whatever
  // either of them sweeps or deletes in between.
  lemma {:induction false} SweepingIsUnobservable(limit: nat, window: real, h: History, g: History)
    requires Naive(limit, window, h) && Naive(limit, window, g)
    requires |h| == |g| && forall i :: 0 <= i < |h| ==> h[i].key == g[i].key && h[i].at == g[i].at
    ensures h == g
  {
    if |h| > 0 {
      var n := |h| - 1;
      SweepingIsUnobservable(limit, window, h[..n], g[..n]);
      assert h == h[..n] + [h[n]] && g == g[..n] + [g[n]];
    }
  }

  function CountWithin(w: Window, from: real, to: real): nat {
    if |w| == 0 then 0 else CountWithin(w[..|w| - 1], from, to) + (if from <= w[|w| - 1] <= to then 1 else 0)
  }

  lemma {:induction false} CountWithinAtMost(w: Window, from: real, to: real)
    ensures CountWithin(w, from, to) <= CountFrom(w, from)
  {
    if |w| > 0 { CountWithinAtMost(w[..|w| - 1], from, to); }
  }

  lemma {:induction false} CountFromMonotone(w: Window, from: real, later: real)
    requires from <= later
    ensures CountFrom(w, later) <= CountFrom(w, from)
  {
    if |w| > 0 { CountFromMonotone(w[..|w| - 1], from, later); }
  }

  // No closed period as long as the window holds more than `limit` admissions of one key.
  lemma {:induction false} NoWindowExceedsLimit(limit: nat, window: real, h: History, key: Key, from: real)
    requires Naive(limit, window, h)
    ensures CountWithin(Admitted(h, key), from, from + window) <= limit
  {
    if |h| > 0 {
      var before, c := h[..|h| - 1], h[|h| - 1];
      var w := Admitted(before, key);
      NoWindowExceedsLimit(limit, window, before, key, from);
      assert (w + [c.at])[..|w|] == w;
      if c.key == key && c.admitted && from <= c.at <= from + window {
        CountWithinAtMost(w, from, from + window);
        CountFromMonotone(w, c.at - window, from);
      }
    }
  }

  // ---- One limiter ----

  function Stored(windows: map<Key, Window>, key: Key): Window {
    if key in windows then windows[key] else []
  }

  // The dictionary answers for the history, key by key, and no deque outgrows the limit.
  ghost predicate KeyFaithful(windows: map<Key, Window>, h: History, cutoff: real, limit: nat, key: Key) {
    |Stored(windows, key)| <= limit && Remembers(h, key, Stored(windows, key), cutoff)
  }

  ghost predicate Faithful(windows: map<Key, Window>, h: History, cutoff: real, limit: nat) {
    forall k :: KeyFaithful(windows, h, cutoff, limit, k)
  }

  lemma FaithfulLater(windows: map<Key, Window>, h: History, earlier: real, later: real, limit: nat)
    requires Faithful(windows, h, earlier, limit) && earlier <= later
    ensures Faithful(windows, h, later, limit)
  {
    forall k ensures KeyFaithful(windows, h, later, limit, k) {
      assert KeyFaithful(windows, h, earlier, limit, k);
      RemembersLater(h, k, Stored(windows, k), earlier, later);
    }
  }

  // A sweep leaves, of every key, what is not expired, and no empty deque.
  ghost predicate SweptFrom(before: map<Key, Window>, after: map<Key, Window>, cutoff: real) {
    && (forall k :: k in after ==> after[k] != [])
    && (forall k :: Stored(after, k) == DropOld(Stored(before, k), cutoff))
  }

  lemma SweepKeepsFaithful(before: map<Key, Window>, after: map<Key, Window>, h: History, cutoff: real, limit: nat)
    requires Faithful(before, h, cutoff, limit) && SweptFrom(before, after, cutoff)
    ensures Faithful(after, h, cutoff, limit)
  {
    forall k ensures KeyFaithful(after, h, cutoff, limit, k) {
      assert KeyFaithful(before, h, cutoff, limit, k);
      RemembersLater(h, k, Stored(before, k), cutoff, cutoff);
    }
  }

  // The call itself: trim the key's deque, test its length, append on admission.
  lemma CallKeepsFaithful(before: map<Key, Window>, after: map<Key, Window>, h: History, cutoff: real, limit: nat, c: Call)
    requires Faithful(before, h, cutoff, limit) && cutoff <= c.at
    requires forall k :: k != c.key ==> Stored(after, k) == Stored(before, k)
    requires var kept := DropOld(Stored(before, c.key), cutoff);
             && (c.admitted ==> |kept| < limit)
             && Stored(after, c.key) == if c.admitted then kept + [c.at] else kept
    ensures Faithful(after, h + [c], cutoff, limit)
  {
    forall k ensures KeyFaithful(after, h + [c], cutoff, limit, k) {
      assert KeyFaithful(before, h, cutoff, limit, k);
      RemembersLater(h, k, Stored(before, k), cutoff, cutoff);
      RemembersCall(h, k, if k == c.key then DropOld(Stored(before, k), cutoff) else Stored(before, k), cutoff, c);
    }
  }

  lemma FaithfulNow(windows: map<Key, Window>, h: History, limit: nat, window: real, now: real)
    requires |h| == 0 ==> forall k :: Stored(windows, k) == []
    requires |h| > 0 ==> h[|h| - 1].at <= now && Faithful(windows, h, h[|h| - 1].at - window, limit)
    ensures Faithful(windows, h, now - window, limit)
  {
    if |h| > 0 { FaithfulLater(windows, h, h[|h| - 1].at - window, now - window, limit); }
  }

  lemma KeyRemembered(windows: map<Key, Window>, h: History, cutoff: real, limit: nat, key: Key)
    requires Faithful(windows, h, cutoff, limit)
    ensures Remembers(h, key, Stored(windows, key), cutoff)
  {
    assert KeyFaithful(windows, h, cutoff, limit, key);
  }

  lemma StoredAfter(windows: map<Key, Window>, key: Key, w: Window)
    ensures Stored(windows[key := w], key) == w
    ensures forall k :: k != key ==> Stored(windows[key := w], k) == Stored(windows, k)
  {
  }

  lemma CallIsNaive(windows: map<Key, Window>, kept: Window, h: History, limit: nat, window: real, c: Call)
    requires window >= 0.0 && Naive(limit, window, h) && InClockOrder(h) && (|h| > 0 ==> h[|h| - 1].at <= c.at)
    requires Faithful(windows, h, c.at - window, limit)
    requires kept == DropOld(Stored(windows, c.key), c.at - window) && (c.admitted <==> |kept| < limit)
    ensures c.admitted <==> Allowed(limit, window, h, c.key, c.at)
    ensures Naive(limit, window, h + [c]) && InClockOrder(h + [c])
    ensures Faithful(windows[c.key := if c.admitted then kept + [c.at] else kept], h + [c], (h + [c])[|h|].at - window, limit)
  {
    hide Naive, InClockOrder, Allowed, DropOld, Admitted, Faithful, Remembers, Stored;
    var left := if c.admitted then kept + [c.at] else kept;
    KeyRemembered(windows, h, c.at - window, limit, c.key);
    LengthIsCount(limit, window, h, c.key, Stored(windows, c.key), c.at);
    StoredAfter(windows, c.key, left);
    CallKeepsFaithful(windows, windows[c.key := left], h, c.at - window, limit, c);
    HistoryGrows(limit, window, h, c);
  }

  // `while window and window[0] < cutoff: window.popleft()`
  method Evict(w: Window, cutoff: real) returns (kept: Window)
    ensures kept == DropOld(w, cutoff)
  {
    kept := w;
    while kept != [] && kept[0] < cutoff
      invariant DropOld(kept, cutoff) == DropOld(w, cutoff)
    {
      kept := kept[1..];
    }
  }

  // A limiter that sweeps also drops a key whose deque empties; one that does not, does neither.
  datatype Config = Config(limit: nat, window: real, sweepInterval: Option<nat>)

  const LOGINS := Config(30, 300.0, Some(1000))
  const REGISTRATIONS := Config(5, 900.0, Some(1000))
  const DISPOSABLE_NODES := Config(5, 900.0, Some(1000))
  const WEBHOOKS := Config(5, 60.0, None)

  class Limiter {
    const limit: nat
    const window: real
    const sweepInterval: Option<nat>
    var windows: map<Key, Window>
    var sweepCounter: nat
    ghost var history: History

    ghost predicate NotAfter(now: real)
      reads this
    {
      |history| > 0 ==> history[|history| - 1].at <= now
    }

    // Deques agree with the history up to what is older than the window at the last call.
    ghost predicate Valid()
      reads this
    {
      && window >= 0.0
      && Naive(limit, window, history) && InClockOrder(history)
      && (|history| == 0 ==> forall k :: Stored(windows, k) == [])
      && (|history| > 0 ==> Faithful(windows, history, history[|history| - 1].at - window, limit))
    }

    constructor (config: Config)
      requires config.window >= 0.0
      ensures Valid() && history == []
      ensures limit == config.limit && window == config.window && sweepInterval == config.sweepInterval
    {
      limit, window, sweepInterval := config.limit, config.window, config.sweepInterval;
      windows, sweepCounter, history := map[], 0, [];
    }

    method Sweep(now: real)
      modifies this`windows
      ensures SweptFrom(old(windows), windows, now - window)
    {
      hide DropOld;
      var cutoff := now - window;
      var pending := windows.Keys;
      while pending != {}
        invariant pending <= windows.Keys
        invariant forall k :: k in pending ==> k in old(windows) && windows[k] == old(windows)[k]
        invariant forall k :: k in windows && k !in pending ==> windows[k] != []
        invariant forall k :: k !in pending ==> Stored(windows, k) == DropOld(Stored(old(windows), k), cutoff)
        decreases pending
      {
        var key :| key in pending;
        pending := pending - {key};
        var kept := Evict(windows[key], cutoff);
        windows := if kept == [] then windows - {key} else windows[key := kept];
      }
    }

    // Every so many calls, the sweep. Nothing a later decision depends on is lost.
    method CountAndSweep(now: real)
      requires Faithful(windows, history, now - window, limit)
      modifies this`windows, this`sweepCounter
      ensures Faithful(windows, history, now - window, limit)
      ensures sweepInterval.None? ==> windows == old(windows)
    {
      if sweepInterval.Some? {
        sweepCounter := sweepCounter + 1;
        if sweepCounter >= sweepInterval.value {
          sweepCounter := 0;
          Sweep(now);
          SweepKeepsFaithful(old(windows), windows, history, now - window, limit);
        }
      }
    }

    // One check, as the code makes it; its answer is the naive rule on the entire history.
    method Check(key: Key, now: real) returns (admitted: bool)
      requires Valid() && NotAfter(now)
      modifies this
      ensures Valid() && NotAfter(now)
      ensures admitted <==> Allowed(limit, window, old(history), key, now)
      ensures history == old(history) + [Call(key, now, admitted)]
    {
      hide Naive, InClockOrder, Allowed, DropOld, Admitted, Faithful, Remembers;
      ghost var h := history;
      FaithfulNow(windows, h, limit, window, now);
      CountAndSweep(now);
      var deque := Evict(Stored(windows, key), now - window);
      admitted := |deque| < limit;
      CallIsNaive(windows, deque, h, limit, window, Call(key, now, admitted));
      var left := if deque == [] && sweepInterval.Some? then windows - {key} else windows;
      assert left[key := deque + [now]] == windows[key := deque + [now]] && left[key := deque] == windows[key := deque];
      windows := left[key := if admitted then deque + [now] else deque];
      history := h + [Call(key, now, admitted)];
    }
  }

  // The four limits as they are set: 30 logins in five minutes, 5 registrations and 5
  // disposable nodes in fifteen, 5 webhook calls in one; of any period that long, of any key.
  lemma ConfiguredLimits(l: Limiter, key: Key, from: real)
    requires l.Valid()
    ensures l.limit == LOGINS.limit && l.window == LOGINS.window ==>
              CountWithin(Admitted(l.history, key), from, from + 300.0) <= 30
    ensures ((l.limit == REGISTRATIONS.limit && l.window == REGISTRATIONS.window)
             || (l.limit == DISPOSABLE_NODES.limit && l.window == DISPOSABLE_NODES.window)) ==>
              CountWithin(Admitted(l.history, key), from, from + 900.0) <= 5
    ensures l.limit == WEBHOOKS.limit && l.window == WEBHOOKS.window ==>
              CountWithin(Admitted(l.history, key), from, from + 60.0) <= 5
  {
    NoWindowExceedsLimit(l.limit, l.window, l.history, key, from);
  }

  // Two limiters of the same limit and window, asked the same at the same times so far, have
  // answered alike and will answer alike, however often each of them sweeps, if at all.
  lemma LimitersDecideAlike(a: Limiter, b: Limiter, key: Key, now: real)
    requires a.Valid() && b.Valid() && a.limit == b.limit && a.window == b.window
    requires a.NotAfter(now) && b.NotAfter(now)
    requires |a.history| == |b.history|
    requires forall i :: 0 <= i < |a.history| ==> a.history[i].key == b.history[i].key && a.history[i].at == b.history[i].at
    ensures a.history == b.history
    ensures DropOld(Stored(a.windows, key), now - a.window) == DropOld(Stored(b.windows, key), now - b.window)
    ensures |DropOld(Stored(a.windows, key), now - a.window)| < a.limit <==> Allowed(a.limit, a.window, a.history, key, now)
  {
    SweepingIsUnobservable(a.limit, a.window, a.history, b.history);
    DequeAnswersForHistory(a, key, now);
    DequeAnswersForHistory(b, key, now);
  }

  lemma DequeAnswersForHistory(l: Limiter, key: Key, now: real)
    requires l.Valid() && l.NotAfter(now)
    ensures DropOld(Stored(l.windows, key), now - l.window) == DropOld(Admitted(l.history, key), now - l.window)
    ensures |DropOld(Stored(l.windows, key), now - l.window)| < l.limit <==> Allowed(l.limit, l.window, l.history, key, now)
  {
    FaithfulNow(l.windows, l.history, l.limit, l.window, now);
    KeyRemembered(l.windows, l.history, now - l.window, l.limit, key);
    LengthIsCount(l.limit, l.window, l.history, key, Stored(l.windows, key), now);
  }
}
