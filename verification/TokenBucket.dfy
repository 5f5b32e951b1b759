/**
 * The gateway's token bucket (gateway/rate_limiting/token_bucket.py) with its in-process store,
 * and what any run of calls on one bucket is allowed to spend.
 *
 * Time and tokens are reals. A run is a sequence of calls in lock order.
 */
module TokenBuckets {
  import opened Basics

  /** One bucket as it is stored between calls. */
  datatype Bucket = Bucket(tokens: real, updatedAt: real)

  datatype RateLimitDecision = RateLimitDecision(
    allowed: bool,
    remaining: int,
    limit: int,
    resetInSeconds: real)

  /** The parameters a caller binds to a bucket. */
  datatype Params = Params(capacity: int, refill: real)

  datatype Call = Call(at: real, cost: int)

  /** Tokens that flow back over a span of time. */
  function Accrued(p: Params, span: real): real {
    span * p.refill
  }

  /** How long a deficit takes to flow back; 0 when nothing ever does. */
  function TimeFor(p: Params, deficit: real): real {
    if p.refill > 0.0 then deficit / p.refill else 0.0
  }

  /** Tokens a call at `now` finds. An unknown key holds a full bucket. */
  function Level(bucket: Option<Bucket>, p: Params, now: real): real {
    match bucket
    case None => p.capacity as real
    case Some(b) => Min(p.capacity as real, b.tokens + Accrued(p, Max(0.0, now - b.updatedAt)))
  }

  function Accepts(bucket: Option<Bucket>, p: Params, c: Call): bool {
    Level(bucket, p, c.at) >= c.cost as real
  }

  /** The bucket a call leaves behind: refilled, and charged only when the call was accepted. */
  function After(bucket: Option<Bucket>, p: Params, c: Call): Bucket {
    var level := Level(bucket, p, c.at);
    Bucket(if Accepts(bucket, p, c) then level - c.cost as real else level, c.at)
  }

  function Decide(bucket: Option<Bucket>, p: Params, c: Call): RateLimitDecision {
    var tokens := After(bucket, p, c).tokens;
    var owed := if Accepts(bucket, p, c) then p.capacity as real - tokens else c.cost as real - tokens;
    RateLimitDecision(Accepts(bucket, p, c), Truncate(tokens), p.capacity,
                      TimeFor(p, owed))
  }

  class InMemoryTokenBucketStore {
    var buckets: map<string, Bucket>

    constructor ()
      ensures buckets == map[]
    {
      buckets := map[];
    }

    method TryConsume(key: string, p: Params, cost: int, now: real) returns (d: RateLimitDecision)
      modifies this
      ensures d == Decide(MapGet(old(buckets), key), p, Call(now, cost))
      ensures buckets == old(buckets)[key := After(MapGet(old(buckets), key), p, Call(now, cost))]
    {
      hide Accrued, TimeFor;
      var state: Bucket;
      if key !in buckets {
        state := Bucket(p.capacity as real, now);
      } else {
        state := buckets[key];
        var elapsed := Max(0.0, now - state.updatedAt);
        state := Bucket(Min(p.capacity as real, state.tokens + Accrued(p, elapsed)), now);
      }
      if state.tokens >= cost as real {
        state := state.(tokens := state.tokens - cost as real);
        buckets := buckets[key := state];
        return RateLimitDecision(true, Truncate(state.tokens), p.capacity,
                                 TimeFor(p, p.capacity as real - state.tokens));
      }
      buckets := buckets[key := state];
      return RateLimitDecision(false, Truncate(state.tokens), p.capacity, TimeFor(p, cost as real - state.tokens));
    }
  }

  // ---------------------------------------------------------------- runs on one bucket

  /** The bucket a run of calls turns `bucket` into. */
  function Drain(bucket: Option<Bucket>, calls: seq<Call>, p: Params): Option<Bucket>
    decreases calls
  {
    if calls == [] then bucket else Drain(Some(After(bucket, p, calls[0])), calls[1..], p)
  }

  /** Every decision of a run that starts at `bucket`. */
  function Decisions(bucket: Option<Bucket>, calls: seq<Call>, p: Params): (ds: seq<RateLimitDecision>)
    ensures |ds| == |calls|
    decreases calls
  {
    if calls == [] then []
    else [Decide(bucket, p, calls[0])] + Decisions(Some(After(bucket, p, calls[0])), calls[1..], p)
  }

  ghost predicate Chronological(calls: seq<Call>) {
    forall i, j :: 0 <= i <= j < |calls| ==> calls[i].at <= calls[j].at
  }

  /** Tokens available to call j of a run on a fresh key. */
  function Available(calls: seq<Call>, p: Params, j: nat): real
    requires j < |calls|
  {
    Level(Drain(None, calls[..j], p), p, calls[j].at)
  }

  predicate Admitted(calls: seq<Call>, p: Params, j: nat)
    requires j < |calls|
  {
    Available(calls, p, j) >= calls[j].cost as real
  }

  /** Cost admitted by calls i, ..., j - 1. */
  function Spent(calls: seq<Call>, p: Params, i: nat, j: nat): int
    requires i <= j <= |calls|
    decreases j - i
  {
    if i == j then 0
    else Spent(calls, p, i, j - 1) + (if Admitted(calls, p, j - 1) then calls[j - 1].cost else 0)
  }

  /** What a full bucket at call i would still hold at call j. */
  function Headroom(calls: seq<Call>, p: Params, i: nat, j: nat): real
    requires i <= j < |calls|
  {
    p.capacity as real + Accrued(p, calls[j].at - calls[i].at) - Spent(calls, p, i, j) as real
  }

  /** One more call at the end of a run. */
  lemma {:induction false} DrainSnoc(bucket: Option<Bucket>, calls: seq<Call>, c: Call, p: Params)
    ensures Drain(bucket, calls + [c], p) == Some(After(Drain(bucket, calls, p), p, c))
    decreases calls
  {
    hide After;
    if calls == [] {
      assert [c][1..] == [] && calls + [c] == [c];
    } else {
      DrainSnoc(Some(After(bucket, p, calls[0])), calls[1..], c, p);
      assert (calls + [c])[1..] == calls[1..] + [c];
    }
  }

  /** Decision j is made on the bucket the first j calls left. */
  lemma {:induction false} DecisionAt(bucket: Option<Bucket>, calls: seq<Call>, p: Params, j: nat)
    requires j < |calls|
    ensures Decisions(bucket, calls, p)[j] == Decide(Drain(bucket, calls[..j], p), p, calls[j])
    ensures bucket == None ==> (Decisions(bucket, calls, p)[j].allowed <==> Admitted(calls, p, j))
    decreases calls
  {
    if j > 0 {
      hide After, Decide;
      DecisionAt(Some(After(bucket, p, calls[0])), calls[1..], p, j - 1);
      assert calls[1..][..j - 1] == calls[..j][1..];
    }
  }

  lemma AccruedAdds(p: Params, x: real, y: real)
    ensures Accrued(p, x) + Accrued(p, y) == Accrued(p, x + y)
  {
  }

  lemma AccruedZero(p: Params)
    ensures Accrued(p, 0.0) == 0.0
  {
  }

  lemma AccruedMonotone(p: Params, x: real, y: real)
    requires p.refill >= 0.0 && x <= y
    ensures Accrued(p, x) <= Accrued(p, y)
  {
    assert (y - x) * p.refill >= 0.0;
  }

  lemma AfterIsStamped(b: Option<Bucket>, p: Params, c: Call)
    ensures After(b, p, c).updatedAt == c.at
  {
  }

  lemma AvailableStep(calls: seq<Call>, p: Params, j: nat)
    requires 0 < j < |calls| && Chronological(calls)
    ensures var paid := if Admitted(calls, p, j - 1) then calls[j - 1].cost as real else 0.0;
            Available(calls, p, j) == Min(p.capacity as real,
              Available(calls, p, j - 1) - paid + Accrued(p, calls[j].at - calls[j - 1].at))
  {
    hide Accrued;
    assert calls[..j] == calls[..j - 1] + [calls[j - 1]];
    DrainSnoc(None, calls[..j - 1], calls[j - 1], p);
    assert calls[j - 1].at <= calls[j].at;
  }

  lemma HeadroomStep(calls: seq<Call>, p: Params, i: nat, j: nat)
    requires i < j < |calls|
    ensures var paid := if Admitted(calls, p, j - 1) then calls[j - 1].cost as real else 0.0;
            Headroom(calls, p, i, j) ==
              Headroom(calls, p, i, j - 1) - paid + Accrued(p, calls[j].at - calls[j - 1].at)
  {
    hide Accrued;
    AccruedAdds(p, calls[j - 1].at - calls[i].at, calls[j].at - calls[j - 1].at);
  }

  /**
   * Exact admission: the tokens available to call j are the minimum over i <= j of the headroom
   * of the window that starts at call i. The witness is returned.
   */
  lemma {:induction false} AvailableIsLeastHeadroom(calls: seq<Call>, p: Params, j: nat) returns (tight: nat)
    requires j < |calls| && Chronological(calls)
    ensures forall i: nat :: i <= j ==> Available(calls, p, j) <= Headroom(calls, p, i, j)
    ensures tight <= j && Available(calls, p, j) == Headroom(calls, p, tight, j)
  {
    hide Accrued;
    AccruedZero(p);
    if j == 0 {
      tight := 0;
      assert calls[..0] == [];
    } else {
      var before := AvailableIsLeastHeadroom(calls, p, j - 1);
      AvailableStep(calls, p, j);
      forall i: nat | i <= j
        ensures Available(calls, p, j) <= Headroom(calls, p, i, j)
      {
        if i < j { HeadroomStep(calls, p, i, j); }
      }
      HeadroomStep(calls, p, before, j);
      tight := if Available(calls, p, j) == p.capacity as real then j else before;
    }
  }

  /** The window that opens at call i has no room left for call j. */
  predicate Overspends(calls: seq<Call>, p: Params, i: nat, j: nat)
    requires i <= j < |calls|
  {
    Spent(calls, p, i, j) as real + calls[j].cost as real
      > p.capacity as real + (calls[j].at - calls[i].at) * p.refill
  }

  /** A call is denied exactly when some window that ends at it would overspend. */
  lemma DeniedIffSomeWindowOverspends(calls: seq<Call>, p: Params, j: nat)
    requires j < |calls| && Chronological(calls)
    ensures !Admitted(calls, p, j) <==> exists i: nat :: i <= j && Overspends(calls, p, i, j)
  {
    hide Level, Drain, Spent;
    var tight := AvailableIsLeastHeadroom(calls, p, j);
    forall i: nat | i <= j && Overspends(calls, p, i, j)
      ensures !Admitted(calls, p, j)
    {
      assert Available(calls, p, j) <= Headroom(calls, p, i, j);
    }
    if !Admitted(calls, p, j) {
      assert Overspends(calls, p, tight, j);
    }
  }

  /** No window of calls i, ..., j ever admits more than the burst plus the refill over its span. */
  lemma {:induction false} WindowNeverOverspends(calls: seq<Call>, p: Params, i: nat, j: nat)
    requires i <= j < |calls| && Chronological(calls)
    requires p.capacity >= 0 && p.refill >= 0.0
    ensures Spent(calls, p, i, j + 1) as real <= p.capacity as real + Accrued(p, calls[j].at - calls[i].at)
  {
    hide Accrued;
    if Admitted(calls, p, j) {
      var _ := AvailableIsLeastHeadroom(calls, p, j);
      assert Available(calls, p, j) <= Headroom(calls, p, i, j);
    } else if i < j {
      WindowNeverOverspends(calls, p, i, j - 1);
      AccruedMonotone(p, calls[j - 1].at - calls[i].at, calls[j].at - calls[i].at);
    } else {
      AccruedZero(p);
      assert Spent(calls, p, i, j + 1) == Spent(calls, p, i, i);
    }
  }

  // ---------------------------------------------------------------- denials are free

  /** Refilling in two steps is refilling once, as long as nothing was charged in between. */
  lemma LevelComposes(bucket: Option<Bucket>, p: Params, t: real, later: real)
    requires p.refill >= 0.0 && t <= later
    requires bucket.Some? ==> bucket.value.updatedAt <= t
    ensures Level(Some(Bucket(Level(bucket, p, t), t)), p, later) == Level(bucket, p, later)
  {
    hide Accrued;
    AccruedZero(p);
    AccruedMonotone(p, 0.0, later - t);
    if bucket.Some? {
      AccruedAdds(p, t - bucket.value.updatedAt, later - t);
    }
  }

  /** The elements whose flag is set, in order. */
  function Select<T>(s: seq<T>, keep: seq<bool>): seq<T>
    requires |s| == |keep|
  {
    if s == [] then [] else (if keep[0] then [s[0]] else []) + Select(s[1..], keep[1..])
  }

  /** Two buckets no later call at or after `t` can tell apart. */
  ghost predicate SameFrom(b1: Option<Bucket>, b2: Option<Bucket>, p: Params, t: real) {
    forall later: real :: t <= later ==> Level(b1, p, later) == Level(b2, p, later)
  }

  /** Charging nothing leaves a bucket that answers every later call as before. */
  lemma DeniedCallIsInvisible(b1: Option<Bucket>, b2: Option<Bucket>, p: Params, c: Call)
    requires p.refill >= 0.0 && !Accepts(b1, p, c)
    requires Level(b1, p, c.at) == Level(b2, p, c.at)
    requires b2.Some? ==> b2.value.updatedAt <= c.at
    ensures SameFrom(Some(After(b1, p, c)), b2, p, c.at)
  {
    hide Accrued;
    forall later: real | c.at <= later
      ensures Level(Some(After(b1, p, c)), p, later) == Level(b2, p, later)
    {
      LevelComposes(b2, p, c.at, later);
    }
  }

  /** Equal levels give equal decisions and equal buckets. */
  lemma DecideByLevel(b1: Option<Bucket>, b2: Option<Bucket>, p: Params, c: Call)
    requires Level(b1, p, c.at) == Level(b2, p, c.at)
    ensures Decide(b1, p, c) == Decide(b2, p, c) && After(b1, p, c) == After(b2, p, c)
  {
    hide Accrued, TimeFor, Level;
  }

  lemma {:induction false} DroppingDenials(
      b1: Option<Bucket>, b2: Option<Bucket>, calls: seq<Call>, keep: seq<bool>, p: Params, t: real)
    requires |keep| == |calls| && Chronological(calls) && p.refill >= 0.0
    requires calls != [] ==> t <= calls[0].at
    requires SameFrom(b1, b2, p, t) && (b2.Some? ==> b2.value.updatedAt <= t)
    requires forall j: nat :: j < |calls| && !keep[j] ==> !Decisions(b1, calls, p)[j].allowed
    ensures Decisions(b2, Select(calls, keep), p) == Select(Decisions(b1, calls, p), keep)
    decreases calls
  {
    if calls != [] {
      RestIsDenied(b1, calls, keep, p);
      hide Accrued, TimeFor, Level, Accepts, After, Decide, SameFrom, Decisions, Select;
      var c, rest := calls[0], calls[1..];
      var next := Some(After(b1, p, c));
      var kept := Select(rest, keep[1..]);
      assert calls == [c] + rest;
      DecisionsCons(b1, c, rest, p);
      SelectCons(c, rest, keep);
      SelectCons(Decide(b1, p, c), Decisions(next, rest, p), keep);
      NextCall(b1, b2, p, c, t, keep[0]);
      if keep[0] {
        DroppingDenials(next, next, rest, keep[1..], p, c.at);
        DecisionsCons(b2, c, kept, p);
      } else {
        DroppingDenials(next, b2, rest, keep[1..], p, c.at);
      }
    }
  }

  lemma DecisionsCons(bucket: Option<Bucket>, c: Call, rest: seq<Call>, p: Params)
    ensures Decisions(bucket, [c] + rest, p) == [Decide(bucket, p, c)] + Decisions(Some(After(bucket, p, c)), rest, p)
  {
    hide Decide, After;
    assert ([c] + rest)[1..] == rest;
  }

  lemma SelectCons<T>(x: T, rest: seq<T>, keep: seq<bool>)
    requires |keep| == 1 + |rest|
    ensures Select([x] + rest, keep) == if keep[0] then [x] + Select(rest, keep[1..]) else Select(rest, keep[1..])
  {
    assert ([x] + rest)[1..] == rest && [] + Select(rest, keep[1..]) == Select(rest, keep[1..]);
  }

  lemma RestIsDenied(bucket: Option<Bucket>, calls: seq<Call>, keep: seq<bool>, p: Params)
    requires |keep| == |calls| && calls != []
    requires forall j: nat :: j < |calls| && !keep[j] ==> !Decisions(bucket, calls, p)[j].allowed
    ensures keep[0] || !Decide(bucket, p, calls[0]).allowed
    ensures forall j: nat :: j < |calls| - 1 && !keep[1..][j] ==>
              !Decisions(Some(After(bucket, p, calls[0])), calls[1..], p)[j].allowed
  {
    hide Decide, After;
    var decisions := Decisions(bucket, calls, p);
    assert decisions[1..] == Decisions(Some(After(bucket, p, calls[0])), calls[1..], p);
    forall j: nat | j < |calls| - 1 && !keep[1..][j]
      ensures !decisions[1..][j].allowed
    {
      assert !decisions[j + 1].allowed;
    }
  }

  /** Keeping a call keeps two matching buckets equal; dropping a denied one keeps them matching. */
  lemma NextCall(b1: Option<Bucket>, b2: Option<Bucket>, p: Params, c: Call, t: real, keep: bool)
    requires p.refill >= 0.0 && t <= c.at
    requires SameFrom(b1, b2, p, t) && (b2.Some? ==> b2.value.updatedAt <= t)
    requires keep || !Decide(b1, p, c).allowed
    ensures keep ==> Decide(b1, p, c) == Decide(b2, p, c) && After(b1, p, c) == After(b2, p, c)
    ensures keep ==> After(b1, p, c).updatedAt == c.at
    ensures keep ==> SameFrom(Some(After(b1, p, c)), Some(After(b1, p, c)), p, c.at)
    ensures !keep ==> SameFrom(Some(After(b1, p, c)), b2, p, c.at)
  {
    hide Accrued, TimeFor, Level;
    assert Level(b1, p, c.at) == Level(b2, p, c.at);
    if keep { DecideByLevel(b1, b2, p, c); } else { DeniedCallIsInvisible(b1, b2, p, c); }
  }

  /** Deleting any set of denied calls from a run changes no other decision, not even its counters. */
  lemma DenialsAreFree(bucket: Option<Bucket>, calls: seq<Call>, keep: seq<bool>, p: Params)
    requires |keep| == |calls| && Chronological(calls) && p.refill >= 0.0
    requires bucket.Some? && calls != [] ==> bucket.value.updatedAt <= calls[0].at
    requires forall j: nat :: j < |calls| && !keep[j] ==> !Decisions(bucket, calls, p)[j].allowed
    ensures Decisions(bucket, Select(calls, keep), p) == Select(Decisions(bucket, calls, p), keep)
  {
    if calls != [] {
      DroppingDenials(bucket, bucket, calls, keep, p, calls[0].at);
    }
  }

  // ---------------------------------------------------------------- the retry hint

  lemma {:induction false} LevelThroughDenials(bucket: Bucket, polls: seq<Call>, p: Params, t: real)
    requires Chronological(polls) && p.refill >= 0.0 && bucket.updatedAt <= t
    requires forall c :: c in polls ==> bucket.updatedAt <= c.at <= t
    requires forall d :: d in Decisions(Some(bucket), polls, p) ==> !d.allowed
    ensures Level(Drain(Some(bucket), polls, p), p, t) == Level(Some(bucket), p, t)
    decreases polls
  {
    if polls != [] {
      hide Accrued, TimeFor, Level;
      var next := After(Some(bucket), p, polls[0]);
      assert Decisions(Some(bucket), polls, p)[0] == Decide(Some(bucket), p, polls[0]);
      forall d | d in Decisions(Some(next), polls[1..], p)
        ensures !d.allowed
      {
        assert d in Decisions(Some(bucket), polls, p);
      }
      LevelThroughDenials(next, polls[1..], p, t);
      LevelComposes(Some(bucket), p, polls[0].at, t);
    }
  }

  /**
   * The hint is exact. A call of some cost was denied; after that come only denied calls, of any cost.
   * The same cost is then admitted at `t` if and only if it could ever be (a positive refill and a
   * cost within the capacity) and `t` is no earlier than the denial plus the hint.
   */
  lemma RetryHintIsExact(bucket: Option<Bucket>, c: Call, polls: seq<Call>, p: Params, t: real)
    requires p.refill >= 0.0 && Chronological(polls) && c.at <= t
    requires forall q :: q in polls ==> c.at <= q.at <= t
    requires !Decide(bucket, p, c).allowed
    requires forall d :: d in Decisions(Some(After(bucket, p, c)), polls, p) ==> !d.allowed
    ensures Decide(Drain(Some(After(bucket, p, c)), polls, p), p, Call(t, c.cost)).allowed <==>
            p.refill > 0.0 && c.cost <= p.capacity && c.at + Decide(bucket, p, c).resetInSeconds <= t
  {
    hide Accrued, TimeFor;
    LevelThroughDenials(After(bucket, p, c), polls, p, t);
    DeniedLevelRises(Level(bucket, p, c.at), p, c, t);
  }

  lemma DeniedLevelRises(level: real, p: Params, c: Call, t: real)
    requires level < c.cost as real && p.refill >= 0.0 && c.at <= t && level <= p.capacity as real
    ensures var h := TimeFor(p, c.cost as real - level);
            Level(Some(Bucket(level, c.at)), p, t) >= c.cost as real <==>
            p.refill > 0.0 && c.cost <= p.capacity && c.at + h <= t
  {
    hide Accrued, TimeFor;
    AccruedReaches(p, c.cost as real - level, t - c.at);
  }

  lemma AccruedReaches(p: Params, deficit: real, span: real)
    requires deficit > 0.0 && p.refill >= 0.0
    ensures Accrued(p, span) >= deficit <==> p.refill > 0.0 && TimeFor(p, deficit) <= span
  {
    if p.refill > 0.0 {
      var h := TimeFor(p, deficit);
      assert h * p.refill == deficit;
      if h <= span {
        AccruedMonotone(p, h, span);
      } else {
        assert (h - span) * p.refill > 0.0;
      }
    }
  }

  // ---------------------------------------------------------------- the other counters of a decision

  /** `remaining` is exact: the largest cost that would still be admitted at the same instant. */
  lemma RemainingIsExact(bucket: Option<Bucket>, p: Params, c: Call, n: int)
    requires c.cost >= 0 && After(bucket, p, c).tokens >= 0.0
    ensures Decide(Some(After(bucket, p, c)), p, Call(c.at, n)).allowed <==> n <= Decide(bucket, p, c).remaining
    ensures Decide(bucket, p, c).limit == p.capacity
  {
    hide Accrued, TimeFor;
    AccruedZero(p);
    var tokens := After(bucket, p, c).tokens;
    assert Level(Some(After(bucket, p, c)), p, c.at) == tokens;
  }

  /** After an admitted call the hint says exactly when the bucket is full again. */
  lemma FullAgainExactly(bucket: Option<Bucket>, p: Params, c: Call, t: real)
    requires p.refill > 0.0 && c.cost >= 0 && c.at <= t && Accepts(bucket, p, c)
    ensures Level(Some(After(bucket, p, c)), p, t) == p.capacity as real <==>
            c.at + Decide(bucket, p, c).resetInSeconds <= t
  {
    var owed := p.capacity as real - After(bucket, p, c).tokens;
    if owed > 0.0 {
      AccruedReaches(p, owed, t - c.at);
    } else {
      assert owed == 0.0 && TimeFor(p, owed) == 0.0;
      AccruedMonotone(p, 0.0, t - c.at);
    }
    hide Accrued, TimeFor;
  }

  /** Of calls of cost one that all come at once, a fresh key admits exactly the first `capacity`. */
  lemma {:induction false} BurstIsExact(calls: seq<Call>, p: Params, j: nat)
    requires j < |calls| && p.capacity >= 0
    requires forall i :: 0 <= i < |calls| ==> calls[i] == Call(calls[0].at, 1)
    ensures Admitted(calls, p, j) <==> j < p.capacity
    ensures Available(calls, p, j) == MaxInt(0, p.capacity - j) as real
  {
    hide Accrued;
    AccruedZero(p);
    if j == 0 {
      assert calls[..0] == [];
    } else {
      BurstIsExact(calls, p, j - 1);
      AvailableStep(calls, p, j);
    }
  }

  /** Calls of cost one that leave each other time to flow back are all admitted. */
  lemma {:induction false} SpacedCallsPass(calls: seq<Call>, p: Params, j: nat)
    requires j < |calls| && Chronological(calls) && p.capacity >= 1
    requires forall i :: 0 <= i < |calls| ==> calls[i].cost == 1
    requires forall i :: 0 < i < |calls| ==> (calls[i].at - calls[i - 1].at) * p.refill >= 1.0
    ensures Admitted(calls, p, j)
  {
    if j == 0 {
      assert calls[..0] == [];
    } else {
      SpacedCallsPass(calls, p, j - 1);
      AvailableStep(calls, p, j);
      assert Accrued(p, calls[j].at - calls[j - 1].at) >= 1.0;
    }
    hide Accrued, Level, Drain;
  }

  // ---------------------------------------------------------------- many keys in one store

  datatype KeyedCall = KeyedCall(key: string, call: Call)

  /** The store's dictionary after a run over many keys; key k always uses params(k). */
  function StoreAfter(run: seq<KeyedCall>, params: string -> Params): map<string, Bucket> {
    if run == [] then map[]
    else
      var store, c := StoreAfter(Init(run), params), Last(run);
      store[c.key := After(MapGet(store, c.key), params(c.key), c.call)]
  }

  function CallsOf(run: seq<KeyedCall>, key: string): seq<Call> {
    if run == [] then []
    else CallsOf(Init(run), key) + (if Last(run).key == key then [Last(run).call] else [])
  }

  /** Keys never interfere: what is stored under a key is what its own calls alone produce. */
  lemma {:induction false} KeysAreIsolated(run: seq<KeyedCall>, params: string -> Params, key: string)
    ensures MapGet(StoreAfter(run, params), key) == Drain(None, CallsOf(run, key), params(key))
  {
    if run != [] {
      var before, c := Init(run), Last(run);
      KeysAreIsolated(before, params, key);
      if c.key == key {
        DrainSnoc(None, CallsOf(before, key), c.call, params(key));
      } else {
        assert CallsOf(run, key) == CallsOf(before, key);
      }
    }
  }
}
