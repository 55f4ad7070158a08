// The token buckets of the extension proxy. Clock readings and token counts are reals, and
// readings of the clock never decrease.
module TokenBucket {
  // One call of take: when, what had been refilled since time zero by then, and whether it
  // was admitted. Counting in `credit`, refill * time, keeps all the accounting linear.
  datatype Call = Call(at: real, credit: real, admitted: bool)
  type History = seq<Call>

  // Admissions from call i on, counted in tokens.
  function Since(h: History, i: nat): real
    decreases |h| - i
  {
    if i >= |h| then 0.0 else (if h[i].admitted then 1.0 else 0.0) + Since(h, i + 1)
  }

  // Indices of two calls in order. It guards the quantifiers below, which then speak only
  // where a proof names a pair.
  ghost predicate Between(h: History, i: int, j: int) {
    0 <= i <= j < |h|
  }

  ghost predicate Ordered(h: History) {
    forall i, j {:trigger Between(h, i, j)} :: Between(h, i, j) ==> h[i].at <= h[j].at
  }

  // Credit accrues with time, at the refill rate.
  ghost predicate Priced(rate: real, h: History) {
    forall i, j {:trigger Between(h, i, j)} :: Between(h, i, j) ==> h[j].credit - h[i].credit == (h[j].at - h[i].at) * rate
  }

  // The rule over the whole past: counted from any call so far, one more admission stays
  // within the burst capacity plus what has been refilled since that call.
  ghost predicate Admissible(capacity: real, h: History, credit: real) {
    && 1.0 <= capacity
    && forall i :: 0 <= i < |h| ==> Since(h, i) + 1.0 <= capacity + (credit - h[i].credit)
  }

  // The same rule in terms of the clock.
  ghost predicate AdmissibleAt(capacity: real, rate: real, h: History, now: real) {
    && 1.0 <= capacity
    && forall i {:trigger Between(h, i, i)} :: Between(h, i, i) ==> Since(h, i) + 1.0 <= capacity + (now - h[i].at) * rate
  }

  // Every decision in the history is the one the rule gives on what came before it.
  ghost predicate Exact(capacity: real, h: History) {
    |h| == 0 || (Exact(capacity, h[..|h| - 1]) && (h[|h| - 1].admitted <==> Admissible(capacity, h[..|h| - 1], h[|h| - 1].credit)))
  }

  // What the budget counted from call i leaves once `credit` has been refilled.
  ghost function Headroom(capacity: real, h: History, i: nat, credit: real): real
    requires i < |h|
  {
    capacity + (credit - h[i].credit) - Since(h, i)
  }

  // The stored level is the tightest of all those budgets; `tight` is a call that attains it.
  ghost predicate Tracks(capacity: real, h: History, tokens: real, credit: real, tight: nat) {
    && (|h| == 0 ==> tokens == capacity)
    && (|h| > 0 ==> tight < |h| && tokens == Headroom(capacity, h, tight, credit))
    && (forall i: nat :: i < |h| ==> tokens <= Headroom(capacity, h, i, credit))
  }

  function Min(x: real, y: real): real { if x <= y then x else y }

  lemma RefillNotNegative(rate: real, last: real, now: real, gain: real)
    requires rate >= 0.0 && last <= now && gain == (now - last) * rate
    ensures gain >= 0.0
  {
  }

  lemma RefillAdds(rate: real, x: real, y: real, z: real)
    ensures (y - x) * rate + (z - y) * rate == (z - x) * rate
  {
  }

  lemma OrderedAppend(h: History, c: Call)
    requires Ordered(h) && (|h| > 0 ==> h[|h| - 1].at <= c.at)
    ensures Ordered(h + [c])
  {
    forall i, j | Between(h + [c], i, j) ensures (h + [c])[i].at <= (h + [c])[j].at {
      if i < |h| { assert Between(h, i, |h| - 1); }
      if j < |h| { assert Between(h, i, j); }
    }
  }

  lemma PricedAppend(rate: real, h: History, c: Call)
    requires Priced(rate, h)
    requires |h| > 0 ==> c.credit == h[|h| - 1].credit + (c.at - h[|h| - 1].at) * rate
    ensures Priced(rate, h + [c])
  {
    var h' := h + [c];
    forall i, j | Between(h', i, j) ensures h'[j].credit - h'[i].credit == (h'[j].at - h'[i].at) * rate {
      if j < |h| {
        assert Between(h, i, j);
      } else if i < |h| {
        PricedStep(rate, h, i, c);
      }
    }
  }

  lemma PricedStep(rate: real, h: History, i: nat, c: Call)
    requires Priced(rate, h) && i < |h|
    requires c.credit == h[|h| - 1].credit + (c.at - h[|h| - 1].at) * rate
    ensures c.credit - h[i].credit == (c.at - h[i].at) * rate
  {
    assert Between(h, i, |h| - 1);
    RefillAdds(rate, h[i].at, h[|h| - 1].at, c.at);
  }

  // The rule in credit and the rule on the clock are one.
  lemma AdmissibleInTime(capacity: real, rate: real, h: History, credit: real, now: real)
    requires Priced(rate, h)
    requires |h| > 0 ==> credit == h[|h| - 1].credit + (now - h[|h| - 1].at) * rate
    ensures Admissible(capacity, h, credit) <==> AdmissibleAt(capacity, rate, h, now)
  {
    forall i | 0 <= i < |h| ensures (now - h[i].at) * rate == credit - h[i].credit {
      assert Between(h, i, |h| - 1);
      RefillAdds(rate, h[i].at, h[|h| - 1].at, now);
    }
    if Admissible(capacity, h, credit) {
      forall i | Between(h, i, i) ensures Since(h, i) + 1.0 <= capacity + (now - h[i].at) * rate {
      }
    }
    if AdmissibleAt(capacity, rate, h, now) {
      forall i | 0 <= i < |h| ensures Since(h, i) + 1.0 <= capacity + (credit - h[i].credit) {
        assert Between(h, i, i);
      }
    }
  }

  lemma {:induction false} SinceAppend(h: History, c: Call, i: nat)
    requires i <= |h|
    ensures Since(h + [c], i) == Since(h, i) + (if c.admitted then 1.0 else 0.0)
    decreases |h| - i
  {
    if i < |h| {
      SinceAppend(h, c, i + 1);
    }
  }

  // The refilled level is the tightest budget at the new time ...
  lemma RefillTracks(capacity: real, h: History, tokens: real, last: real, credit: real, tight: nat)
    requires Tracks(capacity, h, tokens, last, tight) && last <= credit
    ensures var level := Min(capacity, tokens + (credit - last));
            && level <= capacity
            && (forall i: nat :: i < |h| ==> level <= Headroom(capacity, h, i, credit))
            && (level < capacity ==> tight < |h| && level == Headroom(capacity, h, tight, credit))
  {
    forall i: nat | i < |h|
      ensures Headroom(capacity, h, i, credit) == Headroom(capacity, h, i, last) + (credit - last)
    {
    }
  }

  // ... so admitting on a full token is admitting by the rule ...
  lemma FullTokenIsAdmissible(capacity: real, h: History, tokens: real, last: real, credit: real, tight: nat)
    requires Tracks(capacity, h, tokens, last, tight) && last <= credit
    ensures Min(capacity, tokens + (credit - last)) >= 1.0 <==> Admissible(capacity, h, credit)
  {
    RefillTracks(capacity, h, tokens, last, credit, tight);
    forall i: nat | i < |h|
      ensures Headroom(capacity, h, i, credit) >= 1.0
         <==> Since(h, i) + 1.0 <= capacity + (credit - h[i].credit)
    {
    }
  }

  // ... and the level left over tracks the longer history.
  lemma TakeTracks(capacity: real, h: History, tokens: real, last: real, c: Call, tight: nat) returns (tight': nat)
    requires Tracks(capacity, h, tokens, last, tight) && last <= c.credit
    ensures Tracks(capacity, h + [c], Min(capacity, tokens + (c.credit - last)) - (if c.admitted then 1.0 else 0.0), c.credit, tight')
  {
    var h' := h + [c];
    var level := Min(capacity, tokens + (c.credit - last));
    RefillTracks(capacity, h, tokens, last, c.credit, tight);
    forall i: nat | i < |h'| ensures level - (if c.admitted then 1.0 else 0.0) <= Headroom(capacity, h', i, c.credit) {
      SinceAppend(h, c, i);
      if i < |h| { assert level <= Headroom(capacity, h, i, c.credit); }
    }
    tight' := if level < capacity then tight else |h|;
    SinceAppend(h, c, tight');
  }

  // ---- The bound the buckets exist for ----

  function AdmittedWithin(h: History, from: real, to: real): real {
    if |h| == 0 then 0.0
    else
      var c := h[|h| - 1];
      AdmittedWithin(h[..|h| - 1], from, to) + (if c.admitted && from <= c.at <= to then 1.0 else 0.0)
  }

  // Calls of a period that reaches to the end of the history form a suffix of it.
  lemma {:induction false} PeriodIsSuffix(h: History, first: nat, from: real, to: real)
    requires first <= |h|
    requires forall i :: 0 <= i < first ==> h[i].at < from
    requires forall i :: first <= i < |h| ==> from <= h[i].at <= to
    ensures AdmittedWithin(h, from, to) == Since(h, first)
  {
    if |h| > 0 {
      var before, c := h[..|h| - 1], h[|h| - 1];
      assert h == before + [c];
      if first < |h| {
        PeriodIsSuffix(before, first, from, to);
        SinceAppend(before, c, first);
      } else {
        PeriodIsSuffix(before, |before|, from, to);
      }
    }
  }

  lemma PrefixOrdered(h: History)
    requires Ordered(h) && |h| > 0
    ensures Ordered(h[..|h| - 1])
    ensures forall i :: 0 <= i < |h| ==> h[i].at <= h[|h| - 1].at
  {
    var before := h[..|h| - 1];
    forall i, j | Between(before, i, j) ensures before[i].at <= before[j].at {
      assert Between(h, i, j);
    }
    forall i | 0 <= i < |h| ensures h[i].at <= h[|h| - 1].at {
      assert Between(h, i, |h| - 1);
    }
  }

  lemma {:induction false} PeriodStart(h: History, from: real) returns (first: nat)
    requires Ordered(h)
    ensures first <= |h|
    ensures forall i :: 0 <= i < first ==> h[i].at < from
    ensures forall i :: first <= i < |h| ==> from <= h[i].at
  {
    first := |h|;
    if |h| > 0 {
      PrefixOrdered(h);
      if from <= h[|h| - 1].at {
        first := PeriodStart(h[..|h| - 1], from);
      }
    }
  }

  // No two calls of the period are further apart in credit than `span`.
  ghost predicate Spans(h: History, from: real, to: real, span: real) {
    && span >= 0.0
    && forall i, j :: 0 <= i <= j < |h| && from <= h[i].at && h[j].at <= to ==> h[j].credit - h[i].credit <= span
  }

  lemma {:induction false} NoPeriodExceedsSpan(capacity: real, h: History, from: real, to: real, span: real)
    requires capacity >= 0.0 && Ordered(h) && Exact(capacity, h) && Spans(h, from, to, span)
    ensures AdmittedWithin(h, from, to) <= capacity + span
  {
    if |h| > 0 {
      var before, c := h[..|h| - 1], h[|h| - 1];
      PrefixOrdered(h);
      NoPeriodExceedsSpan(capacity, before, from, to, span);
      if c.admitted && from <= c.at <= to {
        var first := PeriodStart(before, from);
        PeriodIsSuffix(before, first, from, to);
        if first < |before| { assert before[first] == h[first]; }
      }
    }
  }

  // No period admits more than the capacity plus the refill over its length.
  lemma NoPeriodExceedsBudget(capacity: real, rate: real, h: History, from: real, to: real)
    requires rate >= 0.0 && capacity >= 0.0 && Ordered(h) && Priced(rate, h) && Exact(capacity, h) && from <= to
    ensures AdmittedWithin(h, from, to) <= capacity + (to - from) * rate
  {
    var span := (to - from) * rate;
    assert Spans(h, from, to, span) by {
      RefillNotNegative(rate, from, to, span);
      forall i, j | 0 <= i <= j < |h| && from <= h[i].at && h[j].at <= to ensures h[j].credit - h[i].credit <= span {
        assert Between(h, i, j);
        RefillNotNegative(rate, h[j].at - h[i].at, to - from, span - (h[j].at - h[i].at) * rate);
      }
    }
    NoPeriodExceedsSpan(capacity, h, from, to, span);
  }

  // ---- One bucket ----

  // Everything a bucket's fields stand for, `earned` having been refilled so far.
  ghost predicate Sound(capacity: real, rate: real, h: History, tokens: real, last: real, earned: real, tight: nat) {
    && Ordered(h) && Exact(capacity, h) && Priced(rate, h)
    && Tracks(capacity, h, tokens, earned, tight)
    && (|h| > 0 ==> h[|h| - 1].at == last && h[|h| - 1].credit == earned)
    && (capacity >= 0.0 ==> 0.0 <= tokens <= capacity)
  }

  // A call the code makes: credited with the refill since the last one, and admitted on a
  // full token.
  ghost predicate Decided(capacity: real, rate: real, tokens: real, last: real, earned: real, gain: real, c: Call) {
    && last <= c.at
    && gain == (c.at - last) * rate
    && c.credit == earned + gain
    && (c.admitted <==> Min(capacity, tokens + gain) >= 1.0)
  }

  // It is admitted exactly when the rule over all calls before it allows ...
  lemma TakeIsExact(capacity: real, rate: real, h: History, tokens: real, last: real, earned: real, tight: nat, gain: real, c: Call)
    requires rate >= 0.0 && Sound(capacity, rate, h, tokens, last, earned, tight)
    requires Decided(capacity, rate, tokens, last, earned, gain, c)
    ensures c.admitted <==> AdmissibleAt(capacity, rate, h, c.at)
    ensures gain >= 0.0 && Exact(capacity, h + [c])
  {
    RefillNotNegative(rate, last, c.at, gain);
    FullTokenIsAdmissible(capacity, h, tokens, earned, c.credit, tight);
    assert (h + [c])[..|h|] == h;
    assert Admissible(capacity, h, c.credit) <==> AdmissibleAt(capacity, rate, h, c.at) by {
      AdmissibleInTime(capacity, rate, h, c.credit, c.at);
    }
  }

  // ... and the fields stand for the longer history.
  lemma TakeKeepsSound(capacity: real, rate: real, h: History, tokens: real, last: real, earned: real, tight: nat,
                       gain: real, c: Call, left: real)
      returns (tight': nat)
    requires rate >= 0.0 && Sound(capacity, rate, h, tokens, last, earned, tight)
    requires Decided(capacity, rate, tokens, last, earned, gain, c)
    requires left == Min(capacity, tokens + gain) - (if c.admitted then 1.0 else 0.0)
    ensures Sound(capacity, rate, h + [c], left, c.at, c.credit, tight')
  {
    TakeIsExact(capacity, rate, h, tokens, last, earned, tight, gain, c);
    assert Priced(rate, h + [c]) by { PricedAppend(rate, h, c); }
    assert Ordered(h + [c]) by { OrderedAppend(h, c); }
    tight' := TakeTracks(capacity, h, tokens, earned, c, tight);
  }

  class Bucket {
    const capacity: real
    const refillPerSec: real
    var tokens: real
    var last: real
    ghost var earned: real
    ghost var tight: nat
    ghost var history: History

    ghost predicate Valid()
      reads this
    {
      refillPerSec >= 0.0 && Sound(capacity, refillPerSec, history, tokens, last, earned, tight)
    }

    constructor (capacity: real, refillPerSec: real, now: real)
      requires refillPerSec >= 0.0
      ensures Valid() && history == [] && last == now && tokens == capacity
      ensures this.capacity == capacity && this.refillPerSec == refillPerSec
    {
      this.capacity, this.refillPerSec := capacity, refillPerSec;
      tokens, last, earned, history := capacity, now, 0.0, [];
    }

    method Take(now: real) returns (admitted: bool)
      requires Valid() && last <= now
      modifies this
      ensures Valid() && last == now
      ensures admitted <==> AdmissibleAt(capacity, refillPerSec, old(history), now)
      ensures history == old(history) + [Call(now, earned, admitted)]
    {
      hide AdmissibleAt, Sound, Since;
      var gain := (now - last) * refillPerSec;
      var level := Min(capacity, tokens + gain);
      admitted := level >= 1.0;
      var left := if admitted then level - 1.0 else level;
      ghost var call := Call(now, earned + gain, admitted);
      TakeIsExact(capacity, refillPerSec, history, tokens, last, earned, tight, gain, call);
      tight := TakeKeepsSound(capacity, refillPerSec, history, tokens, last, earned, tight, gain, call, left);
      tokens, last, earned, history := left, now, earned + gain, history + [call];
    }
  }
}
