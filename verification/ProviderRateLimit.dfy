/**
 * The LLM service's rate limits (llm/rate_limiter.py): one token bucket per provider, made on first
 * use. The bucket is the gateway's bucket with a cost of one and a refill of rate / 60 per second.
 */
module ProviderRateLimits {
  import opened Basics
  import opened TokenBuckets

  /** A rate of 0 switches limiting off; a negative rate or burst counts as 0. */
  datatype Quota = Quota(ratePerMinute: nat, burst: nat)

  function ParamsOf(q: Quota): Params {
    Params(q.burst, q.ratePerMinute as real / 60.0)
  }

  /** The last refill never lies in the future: the clock is read under the bucket's lock. */
  class TokenBucket {
    const quota: Quota
    var tokens: real
    var lastRefill: real

    function Stored(): Bucket
      reads this
    {
      Bucket(tokens, lastRefill)
    }

    constructor (ratePerMinute: int, burst: int, now: real)
      ensures quota == Quota(MaxInt(0, ratePerMinute), MaxInt(0, burst))
      ensures Stored() == Bucket(quota.burst as real, now)
    {
      quota := Quota(MaxInt(0, ratePerMinute), MaxInt(0, burst));
      tokens := MaxInt(0, burst) as real;
      lastRefill := now;
    }

    method TryAcquire(n: int, now: real) returns (ok: bool)
      requires lastRefill <= now
      modifies this
      ensures quota.ratePerMinute == 0 ==> ok && Stored() == old(Stored())
      ensures quota.ratePerMinute > 0 ==>
                && ok == Accepts(Some(old(Stored())), ParamsOf(quota), Call(now, n))
                && Stored() == After(Some(old(Stored())), ParamsOf(quota), Call(now, n))
    {
      hide Accrued;
      if quota.ratePerMinute == 0 {
        return true;
      }
      var elapsed := now - lastRefill;
      tokens := Min(quota.burst as real, tokens + Accrued(ParamsOf(quota), elapsed));
      lastRefill := now;
      if tokens >= n as real {
        tokens := tokens - n as real;
        return true;
      }
      return false;
    }
  }

  class RateLimiterRegistry {
    const quota: Quota
    var buckets: map<string, TokenBucket>

    /** The buckets are distinct objects with this registry's quota, none refilled after `now`. */
    ghost predicate Valid(now: real)
      reads this, buckets.Values
    {
      && (forall p :: p in buckets ==> buckets[p].quota == quota && buckets[p].lastRefill <= now)
      && (forall p, q :: p in buckets && q in buckets && p != q ==> buckets[p] != buckets[q])
    }

    /** The bucket stored for a provider, if limiting is on and it was ever used. */
    ghost function StoredFor(provider: string): Option<Bucket>
      reads this, buckets.Values
    {
      if provider in buckets && quota.ratePerMinute > 0 then Some(buckets[provider].Stored()) else None
    }

    constructor (ratePerMinute: int, burst: int)
      ensures quota == Quota(MaxInt(0, ratePerMinute), MaxInt(0, burst)) && buckets == map[]
    {
      quota := Quota(MaxInt(0, ratePerMinute), MaxInt(0, burst));
      buckets := map[];
    }

    method Get(provider: string, now: real) returns (bucket: TokenBucket)
      requires Valid(now)
      modifies this
      ensures Valid(now) && provider in buckets && bucket == buckets[provider]
      ensures provider in old(buckets) ==> buckets == old(buckets)
      ensures provider !in old(buckets) ==>
                fresh(bucket) && buckets == old(buckets)[provider := bucket]
                && bucket.Stored() == Bucket(quota.burst as real, now)
    {
      if provider !in buckets {
        bucket := new TokenBucket(quota.ratePerMinute, quota.burst, now);
        buckets := buckets[provider := bucket];
      }
      bucket := buckets[provider];
    }

    /** False stands for RateLimitedError. */
    method EnsureAllowed(provider: string, now: real) returns (ok: bool)
      requires Valid(now)
      modifies this, buckets.Values
      ensures Valid(now) && fresh(buckets.Values - old(buckets.Values))
      ensures ok <==> Permits(quota, old(StoredFor(provider)), now)
      ensures StoredFor(provider) == AfterPermit(quota, old(StoredFor(provider)), now)
      ensures forall q :: q != provider ==> StoredFor(q) == old(StoredFor(q))
    {
      hide Level;
      FreshBucketIsFull(quota, now);
      var bucket := Get(provider, now);
      ok := bucket.TryAcquire(1, now);
    }
  }

  predicate Permits(q: Quota, bucket: Option<Bucket>, now: real) {
    q.ratePerMinute == 0 || Accepts(bucket, ParamsOf(q), Call(now, 1))
  }

  function AfterPermit(q: Quota, bucket: Option<Bucket>, now: real): Option<Bucket> {
    if q.ratePerMinute == 0 then None else Some(After(bucket, ParamsOf(q), Call(now, 1)))
  }

  /** A bucket made this instant behaves as the unknown key does. */
  lemma FreshBucketIsFull(q: Quota, now: real)
    ensures Level(Some(Bucket(q.burst as real, now)), ParamsOf(q), now) == Level(None, ParamsOf(q), now)
  {
    AccruedZero(ParamsOf(q));
  }
}
