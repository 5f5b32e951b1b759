/**
 * The Redis token bucket (the Lua script and its client side) against the in-process one.
 *
 * One clock reading per call is used by both stores and by Redis' own expiry; numbers written to
 * the hash are read back exactly.
 */
module RedisTokenBuckets {
  import opened Basics
  import opened TokenBuckets

  const IDLE_SECONDS := 3600.0

  /** The hash behind `tb:{key}`, with the instant at which Redis forgets it. */
  datatype Hash = Hash(tokens: real, updatedAt: real, expiresAt: real)

  datatype Reply = Reply(allowed: int, tokens: int, capacity: int)

  /** What HMGET finds: nothing at all once the key has expired. */
  function Fetch(hashes: map<string, Hash>, key: string, now: real): Option<Bucket> {
    if key in hashes && now < hashes[key].expiresAt
    then Some(Bucket(hashes[key].tokens, hashes[key].updatedAt))
    else None
  }

  function HashOf(b: Bucket): Hash {
    Hash(b.tokens, b.updatedAt, b.updatedAt + IDLE_SECONDS)
  }

  /** The reply of the script; Redis truncates the token count to an integer. */
  function ScriptReply(bucket: Option<Bucket>, p: Params, c: Call): Reply {
    Reply(if Accepts(bucket, p, c) then 1 else 0, Truncate(After(bucket, p, c).tokens), p.capacity)
  }

  /** The decision the client makes of the reply. */
  function DecisionOf(reply: Reply, p: Params, cost: int): RateLimitDecision {
    RateLimitDecision(reply.allowed != 0, MaxInt(0, reply.tokens), reply.capacity,
                      if reply.allowed == 0 && p.refill > 0.0
                      then Max(0.0, TimeFor(p, (cost - reply.tokens) as real)) else 0.0)
  }

  class RedisTokenBucketStore {
    var hashes: map<string, Hash>

    constructor ()
      ensures hashes == map[]
    {
      hashes := map[];
    }

    method EvalScript(key: string, p: Params, cost: int, now: real) returns (reply: Reply)
      modifies this
      ensures reply == ScriptReply(Fetch(old(hashes), key, now), p, Call(now, cost))
      ensures hashes == old(hashes)[key := HashOf(After(Fetch(old(hashes), key, now), p, Call(now, cost)))]
    {
      hide Accrued;
      var tokens: real;
      if key !in hashes || hashes[key].expiresAt <= now {
        tokens := p.capacity as real;
      } else {
        var delta := Max(0.0, now - hashes[key].updatedAt);
        tokens := Min(p.capacity as real, hashes[key].tokens + Accrued(p, delta));
      }
      var allowed := 0;
      if tokens >= cost as real {
        tokens := tokens - cost as real;
        allowed := 1;
      }
      hashes := hashes[key := Hash(tokens, now, now + IDLE_SECONDS)];
      reply := Reply(allowed, Truncate(tokens), p.capacity);
    }

    method TryConsume(key: string, p: Params, cost: int, now: real) returns (d: RateLimitDecision)
      modifies this
      ensures d == DecisionOf(ScriptReply(Fetch(old(hashes), key, now), p, Call(now, cost)), p, cost)
      ensures hashes == old(hashes)[key := HashOf(After(Fetch(old(hashes), key, now), p, Call(now, cost)))]
    {
      hide TimeFor;
      var reply := EvalScript(key, p, cost, now);
      var retryAfter := 0.0;
      if reply.allowed == 0 && p.refill > 0.0 {
        retryAfter := Max(0.0, TimeFor(p, (cost - reply.tokens) as real));
      }
      d := RateLimitDecision(reply.allowed != 0, MaxInt(0, reply.tokens), reply.capacity, retryAfter);
    }
  }

  /** Burst and refill for a per-minute quota (gateway/rate_limiting/strategies.py). */
  function GetParameters(perMinute: int): Params {
    Params(MaxInt(1, perMinute), perMinute as real / 60.0)
  }

  // ---------------------------------------------------------------- the two stores side by side

  /** One rate-limit check: the quota of the caller's user type, and the call on its key. */
  datatype Check = Check(key: string, perMinute: int, call: Call)

  /** The parts of a decision that both stores define alike. */
  datatype Verdict = Verdict(allowed: bool, remaining: int, limit: int)

  function VerdictOf(d: RateLimitDecision): Verdict {
    Verdict(d.allowed, d.remaining, d.limit)
  }

  function MemoryAfter(run: seq<Check>): map<string, Bucket> {
    if run == [] then map[]
    else
      var store, c := MemoryAfter(Init(run)), Last(run);
      store[c.key := After(MapGet(store, c.key), GetParameters(c.perMinute), c.call)]
  }

  function MemoryVerdicts(run: seq<Check>): seq<Verdict> {
    if run == [] then []
    else
      var c := Last(run);
      MemoryVerdicts(Init(run)) +
      [VerdictOf(Decide(MapGet(MemoryAfter(Init(run)), c.key), GetParameters(c.perMinute), c.call))]
  }

  function RedisAfter(run: seq<Check>): map<string, Hash> {
    if run == [] then map[]
    else
      var store, c := RedisAfter(Init(run)), Last(run);
      store[c.key := HashOf(After(Fetch(store, c.key, c.call.at), GetParameters(c.perMinute), c.call))]
  }

  function RedisVerdicts(run: seq<Check>): seq<Verdict> {
    if run == [] then []
    else
      var c, p := Last(run), GetParameters(Last(run).perMinute);
      RedisVerdicts(Init(run)) +
      [VerdictOf(DecisionOf(ScriptReply(Fetch(RedisAfter(Init(run)), c.key, c.call.at), p, c.call), p, c.call.cost))]
  }

  ghost predicate InOrder(run: seq<Check>) {
    forall i, j :: 0 <= i <= j < |run| ==> run[i].call.at <= run[j].call.at
  }

  /** Redis holds what memory holds, under an expiry memory does not have; nothing is overdrawn. */
  ghost predicate Mirrors(mem: map<string, Bucket>, red: map<string, Hash>, now: real) {
    && mem.Keys == red.Keys
    && forall k :: k in mem ==> red[k] == HashOf(mem[k]) && mem[k].tokens >= 0.0 && mem[k].updatedAt <= now
  }

  /** An hour of idleness refills any bucket whose quota is at least one a minute. */
  lemma IdleHourRefills(perMinute: int, b: Bucket, now: real)
    requires perMinute >= 1 && b.tokens >= 0.0 && now >= b.updatedAt + IDLE_SECONDS
    ensures Level(Some(b), GetParameters(perMinute), now) == Level(None, GetParameters(perMinute), now)
  {
    var p := GetParameters(perMinute);
    assert Accrued(p, IDLE_SECONDS) == 60.0 * perMinute as real;
    AccruedMonotone(p, IDLE_SECONDS, now - b.updatedAt);
  }

  lemma SameVerdict(b1: Option<Bucket>, b2: Option<Bucket>, p: Params, c: Call)
    requires Level(b1, p, c.at) == Level(b2, p, c.at) >= 0.0
    ensures VerdictOf(Decide(b1, p, c)) == VerdictOf(DecisionOf(ScriptReply(b2, p, c), p, c.cost))
    ensures After(b1, p, c) == After(b2, p, c) && After(b1, p, c).tokens >= 0.0
  {
    hide Accrued, TimeFor, Level;
  }

  lemma {:induction false} StoresStayMirrored(run: seq<Check>)
    requires InOrder(run)
    requires forall i :: 0 <= i < |run| ==> run[i].perMinute >= 1
    ensures MemoryVerdicts(run) == RedisVerdicts(run)
    ensures run != [] ==> Mirrors(MemoryAfter(run), RedisAfter(run), Last(run).call.at)
  {
    hide Accrued, Level, After, Decide, DecisionOf, ScriptReply;
    if run != [] {
      var c, p := Last(run), GetParameters(Last(run).perMinute);
      StoresStayMirrored(Init(run));
      var mem, red := MemoryAfter(Init(run)), RedisAfter(Init(run));
      assert Init(run) != [] ==> Last(Init(run)) == run[|run| - 2] && Last(run) == run[|run| - 1];
      assert Mirrors(mem, red, c.call.at);
      var b1, b2 := MapGet(mem, c.key), Fetch(red, c.key, c.call.at);
      SameLevels(b1, b2, c.perMinute, c.call.at);
      SameVerdict(b1, b2, p, c.call);
      AfterIsStamped(b1, p, c.call);
    }
  }

  lemma SameLevels(b1: Option<Bucket>, b2: Option<Bucket>, perMinute: int, now: real)
    requires perMinute >= 1
    requires b1.Some? ==> b1.value.tokens >= 0.0 && b1.value.updatedAt <= now
    requires b1 == b2 || (b2 == None && b1.Some? && now >= b1.value.updatedAt + IDLE_SECONDS)
    ensures Level(b1, GetParameters(perMinute), now) == Level(b2, GetParameters(perMinute), now) >= 0.0
  {
    if b1 != b2 {
      IdleHourRefills(perMinute, b1.value, now);
    } else if b1.Some? {
      AccruedMonotone(GetParameters(perMinute), 0.0, now - b1.value.updatedAt);
    }
  }

  ghost predicate StoresAgree(perMinute: int) {
    forall run: seq<Check> ::
      InOrder(run) && (forall i :: 0 <= i < |run| ==> run[i].perMinute == perMinute)
      ==> MemoryVerdicts(run) == RedisVerdicts(run)
  }

  /** Two calls of one key, an hour apart. */
  function HourApart(perMinute: int): seq<Check> {
    [Check("k", perMinute, Call(0.0, 1)), Check("k", perMinute, Call(IDLE_SECONDS, 1))]
  }

  /** Under a quota that never refills, memory denies the second of two calls an hour apart; Redis forgot the first. */
  lemma NoQuotaTellsThemApart(perMinute: int)
    requires perMinute <= 0
    ensures InOrder(HourApart(perMinute)) && |HourApart(perMinute)| == 2
    ensures forall i :: 0 <= i < 2 ==> HourApart(perMinute)[i].perMinute == perMinute
    ensures !Last(MemoryVerdicts(HourApart(perMinute))).allowed && Last(RedisVerdicts(HourApart(perMinute))).allowed
  {
    var run := HourApart(perMinute);
    var first := run[0];
    assert Init(run) == [first] && Init([first]) == [];
    var p := GetParameters(perMinute);
    assert MemoryAfter([first])["k"] == Bucket(0.0, 0.0);
    assert RedisAfter([first])["k"] == Hash(0.0, 0.0, IDLE_SECONDS);
    assert Accrued(p, IDLE_SECONDS) == 60.0 * perMinute as real;
    assert !Last(MemoryVerdicts(run)).allowed && Last(RedisVerdicts(run)).allowed;
  }

  /**
   * On every run of checks, in any mix of keys and costs, the two stores give the same `allowed`,
   * `remaining` and `limit` if and only if the quota is at least one a minute.
   */
  lemma StoresAgreeExactlyWithAQuota(perMinute: int)
    ensures StoresAgree(perMinute) <==> perMinute >= 1
  {
    if perMinute >= 1 {
      forall run: seq<Check> |
        InOrder(run) && (forall i :: 0 <= i < |run| ==> run[i].perMinute == perMinute)
        ensures MemoryVerdicts(run) == RedisVerdicts(run)
      {
        StoresStayMirrored(run);
      }
    } else {
      NoQuotaTellsThemApart(perMinute);
      assert MemoryVerdicts(HourApart(perMinute)) != RedisVerdicts(HourApart(perMinute));
    }
  }

  /** On a denial Redis' hint errs on the late side, by less than the time of one token. */
  lemma RedisHintIsLate(bucket: Option<Bucket>, p: Params, c: Call)
    requires p.refill > 0.0 && Level(bucket, p, c.at) >= 0.0 && !Accepts(bucket, p, c)
    ensures var mem := Decide(bucket, p, c).resetInSeconds;
            var red := DecisionOf(ScriptReply(bucket, p, c), p, c.cost).resetInSeconds;
            mem <= red < mem + TimeFor(p, 1.0)
  {
    var level := Level(bucket, p, c.at);
    var n := Truncate(level);
    assert c.cost > n;
    QuotientsOrdered(p.refill, c.cost as real - level, (c.cost - n) as real);
  }

  lemma QuotientsOrdered(r: real, x: real, y: real)
    requires r > 0.0 && 0.0 < x <= y < x + 1.0
    ensures 0.0 <= x / r <= y / r < x / r + 1.0 / r
  {
    assert x / r + 1.0 / r == (x + 1.0) / r;
    assert (y - x) / r >= 0.0 && (x + 1.0 - y) / r > 0.0;
    assert y / r == x / r + (y - x) / r;
    assert (x + 1.0) / r == y / r + (x + 1.0 - y) / r;
  }

  /** On an admission Redis gives no hint. */
  lemma RedisHintsOnlyDenials(bucket: Option<Bucket>, p: Params, c: Call)
    requires Accepts(bucket, p, c)
    ensures DecisionOf(ScriptReply(bucket, p, c), p, c.cost).resetInSeconds == 0.0
  {
  }

  /** What a quota admits at once: of calls of cost one on a fresh key, exactly the first `max(1, perMinute)`. */
  lemma QuotaAtOnce(perMinute: int, calls: seq<Call>, j: nat)
    requires j < |calls| && forall k :: 0 <= k < |calls| ==> calls[k] == Call(calls[0].at, 1)
    ensures Admitted(calls, GetParameters(perMinute), j) <==> j < MaxInt(1, perMinute)
  {
    BurstIsExact(calls, GetParameters(perMinute), j);
    hide Admitted;
  }

  /** What it sustains: calls a `perMinute`-th of a minute apart are all admitted. */
  lemma QuotaSustains(perMinute: int, calls: seq<Call>, j: nat)
    requires perMinute >= 1 && j < |calls| && Chronological(calls)
    requires forall k :: 0 <= k < |calls| ==> calls[k].cost == 1
    requires forall k :: 0 < k < |calls| ==> calls[k].at - calls[k - 1].at >= 60.0 / perMinute as real
    ensures Admitted(calls, GetParameters(perMinute), j)
  {
    hide Admitted;
    forall k | 0 < k < |calls|
      ensures (calls[k].at - calls[k - 1].at) * GetParameters(perMinute).refill >= 1.0
    {
      GapRefills(perMinute, calls[k].at - calls[k - 1].at);
    }
    SpacedCallsPass(calls, GetParameters(perMinute), j);
  }

  /** What it allows in a minute at most: the burst and the quota together. */
  lemma QuotaPerMinute(perMinute: int, calls: seq<Call>, i: nat, j: nat)
    requires perMinute >= 0 && i <= j < |calls| && Chronological(calls)
    requires calls[j].at - calls[i].at <= 60.0
    ensures Spent(calls, GetParameters(perMinute), i, j + 1) <= MaxInt(1, perMinute) + perMinute
  {
    hide Spent;
    var p := GetParameters(perMinute);
    WindowNeverOverspends(calls, p, i, j);
    AccruedMonotone(p, calls[j].at - calls[i].at, 60.0);
    assert Accrued(p, 60.0) == perMinute as real;
  }

  lemma GapRefills(perMinute: int, gap: real)
    requires perMinute >= 1 && gap >= 60.0 / perMinute as real
    ensures gap * GetParameters(perMinute).refill >= 1.0
  {
    var q := perMinute as real;
    assert (60.0 / q) * (q / 60.0) == 1.0;
    assert (gap - 60.0 / q) * (q / 60.0) >= 0.0;
  }
}
