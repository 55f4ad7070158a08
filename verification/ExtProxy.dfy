// The rate cap in front of the extension proxy: one token bucket per extension and provider,
// made on first use, and the Retry-After hint of a refusal.
module ExtProxy {
  import opened TokenBucket

  const SOURCE_RATES: map<string, real> := map[
    "opensky" := 0.5, "sentinel" := 0.5, "military-legacy" := 1.0, "airplanes-live" := 1.0,
    "wsdot" := 1.0, "511ny" := 1.0, "massdot" := 1.0, "firms" := 0.5, "launchlib" := 0.5,
    "cloudflare-radar" := 0.5, "nycdot" := 1.0]

  const BURST_SECONDS: real := 5.0

  function RateOf(provider: string): (rate: real)
    ensures rate > 0.0
  {
    if provider in SOURCE_RATES then SOURCE_RATES[provider] else 1.0
  }

  function CapacityOf(rate: real): real { rate * BURST_SECONDS }

  // Seconds a refused client is told to wait: 1/rate cut down to an integer, at least one.
  function RetryAfter(rate: real): int
    requires rate > 0.0
  {
    var whole := (1.0 / rate).Floor;
    if whole > 1 then whole else 1
  }

  function LevelOnRetry(rate: real, tokens: real): real
    requires rate > 0.0
  {
    Min(CapacityOf(rate), tokens + RetryAfter(rate) as real * rate)
  }

  // Whoever is refused and waits that long, with no call in between, finds a full token.
  ghost predicate RetryIsLongEnough(rate: real)
    requires rate > 0.0
  {
    forall tokens: real :: 0.0 <= tokens < 1.0 && tokens <= CapacityOf(rate) ==> LevelOnRetry(rate, tokens) >= 1.0
  }

  // Cutting 1/rate down makes the hint too short exactly when there was something to cut,
  // and no wait is long enough for a bucket that cannot hold one token.
  lemma RetryIsLongEnoughIff(rate: real)
    requires rate > 0.0
    ensures RetryIsLongEnough(rate)
       <==> rate >= 1.0 || (CapacityOf(rate) >= 1.0 && (1.0 / rate).Floor as real == 1.0 / rate)
  {
    var q := 1.0 / rate;
    var wait := RetryAfter(rate) as real;
    assert rate * q == 1.0;
    RefillOver(rate, wait, q);
    assert LevelOnRetry(rate, 0.0) == Min(CapacityOf(rate), wait * rate);
    if wait * rate >= 1.0 && CapacityOf(rate) >= 1.0 {
      assert RetryIsLongEnough(rate);
    }
    if rate >= 1.0 {
      assert q <= 1.0 by { if q > 1.0 { RefillOver(rate, 1.0, q); } }
      assert wait == 1.0;
    } else {
      assert q > 1.0 by { RefillOver(rate, 1.0, q); }
      assert wait == q.Floor as real;
    }
  }

  lemma RefillOver(rate: real, wait: real, q: real)
    requires rate > 0.0 && rate * q == 1.0
    ensures wait * rate >= 1.0 <==> wait >= q
  {
    assert wait * rate - 1.0 == (wait - q) * rate;
    if wait < q { assert (q - wait) * rate > 0.0; }
    if wait >= q { assert (wait - q) * rate >= 0.0; }
  }

  // The providers that are asked once in two seconds; all others, once a second.
  predicate Slow(provider: string) {
    provider in {"opensky", "sentinel", "firms", "launchlib", "cloudflare-radar"}
  }

  lemma RateIs(provider: string)
    ensures RateOf(provider) == (if Slow(provider) then 0.5 else 1.0)
    ensures CapacityOf(RateOf(provider)) == (if Slow(provider) then 2.5 else 5.0)
    ensures RetryAfter(RateOf(provider)) == (if Slow(provider) then 2 else 1)
  {
    assert 1.0 / 0.5 == 2.0;
    assert 1.0 / 1.0 == 1.0;
  }

  // The hint is the whole seconds of the time one token takes, and at least one.
  lemma HintIs(rate: real)
    requires rate > 0.0
    ensures 1 <= RetryAfter(rate)
    ensures 1.0 / rate - 1.0 < RetryAfter(rate) as real
    ensures RetryAfter(rate) > 1 ==> RetryAfter(rate) as real <= 1.0 / rate
  {
  }

  // So no period lets more requests of one pair through than this.
  lemma ProviderBudget(b: Bucket, provider: string, from: real, to: real)
    requires b.Valid() && b.capacity == CapacityOf(RateOf(provider)) && b.refillPerSec == RateOf(provider) && from <= to
    ensures AdmittedWithin(b.history, from, to) <= if Slow(provider) then 2.5 + 0.5 * (to - from) else 5.0 + (to - from)
  {
    RateIs(provider);
    NoPeriodExceedsBudget(b.capacity, b.refillPerSec, b.history, from, to);
  }

  // Every configured provider, and every other one under the default rate, gets a hint that
  // is long enough.
  lemma EveryProviderRetryIsLongEnough(provider: string)
    ensures RetryIsLongEnough(RateOf(provider))
  {
    var rate := RateOf(provider);
    assert rate == 0.5 || rate == 1.0;
    assert 1.0 / 0.5 == 2.0;
    assert (1.0 / rate).Floor as real == 1.0 / rate;
    RetryIsLongEnoughIff(rate);
  }

  // A rate of 0.3 per second would not: the hint is 3 s where 10/3 s are needed.
  lemma RetryTooShortForOtherRates()
    ensures !RetryIsLongEnough(0.3)
  {
    var q := 1.0 / 0.3;
    assert 3.0 < q < 4.0;
    assert q.Floor == 3;
    RetryIsLongEnoughIff(0.3);
  }

  datatype Admission = Forward | TooManyRequests(retryAfter: int)

  class Buckets {
    var buckets: map<(string, string), Bucket>

    ghost predicate Valid()
      reads this, buckets.Values
    {
      && (forall k :: k in buckets ==>
            && buckets[k].Valid()
            && buckets[k].refillPerSec == RateOf(k.1)
            && buckets[k].capacity == CapacityOf(RateOf(k.1)))
      && (forall k, m :: k in buckets && m in buckets && k != m ==> buckets[k] != buckets[m])
    }

    ghost predicate NotAfter(now: real)
      reads this, buckets.Values
    {
      forall k :: k in buckets ==> buckets[k].last <= now
    }

    constructor ()
      ensures Valid() && buckets == map[]
    {
      buckets := map[];
    }

    // Every other pair keeps its bucket, and that bucket its level and its history.
    twostate predicate OthersKept(key: (string, string))
      reads this, buckets.Values
    {
      && (forall k :: k in buckets ==> k == key || k in old(buckets))
      && (forall k :: k in old(buckets) ==> k in buckets && buckets[k] == old(buckets[k]))
      && (forall k :: k in old(buckets) && k != key ==> unchanged(buckets[k]))
    }

    method GetBucket(key: (string, string), now: real) returns (b: Bucket)
      requires Valid() && NotAfter(now)
      modifies this
      ensures Valid() && NotAfter(now) && OthersKept(key) && key in buckets && buckets[key] == b
      ensures if key in old(buckets) then b == old(buckets[key]) && unchanged(b) else fresh(b) && b.history == []
    {
      hide Bucket.Valid;
      if key !in buckets {
        var rate := RateOf(key.1);
        b := new Bucket(rate * BURST_SECONDS, rate, now);
        buckets := buckets[key := b];
      } else {
        b := buckets[key];
      }
    }

    // One proxied request. It is forwarded exactly when the rule over all earlier requests of
    // this extension and provider admits it.
    method Request(extId: string, provider: string, now: real) returns (r: Admission)
      requires Valid() && NotAfter(now)
      modifies this, buckets.Values
      ensures Valid() && NotAfter(now) && OthersKept((extId, provider)) && (extId, provider) in buckets
      ensures var earlier := if (extId, provider) in old(buckets) then old(buckets[(extId, provider)].history) else [];
              && (r.Forward? <==> AdmissibleAt(if Slow(provider) then 2.5 else 5.0, if Slow(provider) then 0.5 else 1.0, earlier, now))
              && |buckets[(extId, provider)].history| == |earlier| + 1
              && earlier <= buckets[(extId, provider)].history
              && buckets[(extId, provider)].history[|earlier|].at == now
              && buckets[(extId, provider)].history[|earlier|].admitted == r.Forward?
      ensures r.TooManyRequests? ==> r.retryAfter == if Slow(provider) then 2 else 1
    {
      RateIs(provider);
      hide Bucket.Valid;
      var bucket := GetBucket((extId, provider), now);
      var admitted := bucket.Take(now);
      if admitted {
        r := Forward;
      } else {
        r := TooManyRequests(RetryAfter(RateOf(provider)));
      }
    }
  }
}
