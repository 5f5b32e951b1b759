/**
 * One provider attempt of the LLM router and the fallback strategy (llm/router.py), over the shared
 * breakers and buckets, and what any mix of requests can start on one provider.
 *
 * An attempt is two atomic steps, because the only suspension point in it is the provider call: it
 * begins by asking the breaker and then the bucket, and it ends by reporting the outcome.
 */
module LlmRouting {
  import opened Basics
  import opened TokenBuckets
  import opened ProviderRateLimits
  import PB = ProviderBreakers

  datatype Config = Config(breaker: PB.Config, quota: Quota)

  /** What the router shares about one provider. */
  datatype Provider = Provider(breaker: PB.State, bucket: Option<Bucket>)

  const UNUSED := Provider(PB.INITIAL, None)

  datatype Gate = Started | CircuitSkipped | RateSkipped

  /** The breaker is asked first; a call it refuses never reaches the bucket. */
  function GateOf(cfg: Config, p: Provider, now: real): Gate {
    if !PB.Allows(cfg.breaker, p.breaker, now) then CircuitSkipped
    else if Permits(cfg.quota, p.bucket, now) then Started
    else RateSkipped
  }

  function AfterBegin(cfg: Config, p: Provider, now: real): Provider {
    if !PB.Allows(cfg.breaker, p.breaker, now) then p
    else Provider(PB.AfterAllow(cfg.breaker, p.breaker, now), AfterPermit(cfg.quota, p.bucket, now))
  }

  function AfterEnd(cfg: Config, p: Provider, ok: bool, now: real): Provider {
    p.(breaker := if ok then PB.AfterSuccess(p.breaker) else PB.AfterFailure(cfg.breaker, p.breaker, now))
  }

  datatype Model = Model(provider: string, modelId: string)

  /** What `provider.complete` comes to. */
  datatype Outcome =
    | Completed(text: string)
    | ProviderTimeout
    | ProviderError(code: string)
    | Crash

  /** One entry of the attempts log. */
  datatype Attempt =
    | Skipped(model: Model, reason: string)
    | Failure(model: Model, code: string)
    | Success(model: Model)

  datatype Error = ProviderFailed(provider: string, code: string) | NoProviderAvailable

  /** The error of a request none of whose attempts succeeded: the last real failure decides. */
  function AttemptsToError(attempts: seq<Attempt>): Error {
    if attempts == [] then NoProviderAvailable
    else if Last(attempts).Failure? then ProviderFailed(Last(attempts).model.provider, Last(attempts).code)
    else AttemptsToError(Init(attempts))
  }

  function EntryOf(m: Model, o: Outcome): Attempt {
    match o
    case Completed(_) => Success(m)
    case ProviderTimeout => Failure(m, "PROVIDER_TIMEOUT")
    case ProviderError(code) => Failure(m, code)
    case Crash => Failure(m, "INTERNAL_ERROR")
  }

  /** The breakers and buckets that exist, by provider. */
  datatype Registry = Registry(breakers: map<string, PB.State>, buckets: map<string, Bucket>)

  function SharedIn(r: Registry, provider: string): Provider {
    Provider(if provider in r.breakers then r.breakers[provider] else PB.INITIAL, MapGet(r.buckets, provider))
  }

  /** Some steps on one provider lead from one state of the registries to the next. */
  ghost predicate Moves(cfg: Config, r0: Registry, r1: Registry, provider: string, steps: seq<Event>) {
    && SharedIn(r1, provider) == ProviderAfter(cfg, SharedIn(r0, provider), steps, provider)
    && forall q :: q != provider ==> SharedIn(r1, q) == SharedIn(r0, q)
  }

  /** The attempts of a log lead from one state of the registries to another. */
  ghost predicate Follows(cfg: Config, r0: Registry, r1: Registry, attempts: seq<Attempt>,
                          upstream: nat -> Outcome, clock: nat -> real) {
    forall q :: SharedIn(r1, q) == FoundAfter(cfg, SharedIn(r0, q), attempts, q, upstream, clock)
  }

  const UNAVAILABLE := "provider_unavailable"

  /** The log entry of an attempt, given what it finds and what the provider makes of it. */
  function AttemptEntry(cfg: Config, providers: set<string>, p: Provider, m: Model, o: Outcome, now: real): Attempt {
    if m.provider !in providers then Skipped(m, UNAVAILABLE)
    else
      match GateOf(cfg, p, now)
      case CircuitSkipped => Skipped(m, "CIRCUIT_OPEN")
      case RateSkipped => Skipped(m, "RATE_LIMITED")
      case Started => EntryOf(m, o)
  }

  /** The steps an attempt takes on its provider, as its log entry tells. */
  function StepsOf(entry: Attempt, o: Outcome, start: real, end: real): seq<Event> {
    var provider := entry.model.provider;
    match entry
    case Skipped(_, reason) => if reason == UNAVAILABLE then [] else [Began(provider, start)]
    case Failure(_, _) => [Began(provider, start), Ended(provider, o.Completed?, end)]
    case Success(_) => [Began(provider, start), Ended(provider, o.Completed?, end)]
  }

  /** The steps of a whole log. */
  function TraceOf(attempts: seq<Attempt>, upstream: nat -> Outcome, clock: nat -> real): seq<Event> {
    if attempts == [] then []
    else
      var k := |attempts| - 1;
      TraceOf(Init(attempts), upstream, clock) +
      StepsOf(Last(attempts), upstream(k), clock(2 * k), clock(2 * k + 1))
  }

  lemma RefusalKeepsBreaker(cfg: PB.Config, s: PB.State, now: real)
    ensures !PB.Allows(cfg, s, now) ==> PB.AfterAllow(cfg, s, now) == s
  {
  }

  /** What the attempts of a log leave of a provider. */
  function FoundAfter(cfg: Config, p: Provider, attempts: seq<Attempt>, provider: string,
                      upstream: nat -> Outcome, clock: nat -> real): Provider {
    ProviderAfter(cfg, p, TraceOf(attempts, upstream, clock), provider)
  }

  class LLMRouter {
    const cfg: Config
    const providers: set<string>
    const breakers: PB.CircuitBreakerRegistry
    const limits: RateLimiterRegistry

    ghost predicate Valid(now: real)
      reads breakers, breakers.breakers.Values, limits, limits.buckets.Values
    {
      breakers.cfg == cfg.breaker && breakers.Valid() && limits.quota == cfg.quota && limits.Valid(now)
    }

    ghost function Shared(provider: string): Provider
      reads breakers, breakers.breakers.Values, limits, limits.buckets.Values
    {
      Provider(breakers.StateFor(provider), limits.StoredFor(provider))
    }

    /** What the two registries hold, as values. */
    ghost function Snapshot(): Registry
      reads breakers, breakers.breakers.Values, limits, limits.buckets.Values
    {
      Registry(map p | p in breakers.breakers :: breakers.breakers[p].Current(),
               map p | p in limits.buckets && limits.quota.ratePerMinute > 0 :: limits.buckets[p].Stored())
    }

    lemma SnapshotShows()
      ensures forall q :: Shared(q) == SharedIn(Snapshot(), q)
    {
    }

    constructor (cfg: Config, providers: set<string>)
      requires PB.Sound(cfg.breaker)
      ensures this.cfg == cfg && this.providers == providers
      ensures fresh(breakers) && fresh(limits) && breakers.breakers == map[] && limits.buckets == map[]
      ensures forall now :: Valid(now)
      ensures forall p :: Shared(p) == UNUSED
    {
      this.cfg := cfg;
      this.providers := providers;
      breakers := new PB.CircuitBreakerRegistry(cfg.breaker);
      limits := new RateLimiterRegistry(cfg.quota.ratePerMinute, cfg.quota.burst);
    }

    /** The first half of an attempt on a configured provider. */
    method Begin(provider: string, now: real) returns (gate: Gate)
      requires Valid(now)
      modifies breakers, breakers.breakers.Values, limits, limits.buckets.Values
      ensures Valid(now)
      ensures fresh(breakers.breakers.Values - old(breakers.breakers.Values))
      ensures fresh(limits.buckets.Values - old(limits.buckets.Values))
      ensures gate == GateOf(cfg, old(Shared(provider)), now)
      ensures Shared(provider) == AfterBegin(cfg, old(Shared(provider)), now)
      ensures forall q :: q != provider ==> Shared(q) == old(Shared(q))
    {
      RefusalKeepsBreaker(cfg.breaker, Shared(provider).breaker, now);
      hide Permits, AfterPermit, PB.Allows, PB.AfterAllow, Valid, Shared;
      var allowed := AskBreaker(provider, now);
      if !allowed {
        return CircuitSkipped;
      }
      var permitted := AskBucket(provider, now);
      gate := if permitted then Started else RateSkipped;
    }

    /** `breaker.ensure_allowed()` */
    method AskBreaker(provider: string, now: real) returns (ok: bool)
      requires Valid(now)
      modifies breakers, breakers.breakers.Values
      ensures Valid(now)
      ensures fresh(breakers.breakers.Values - old(breakers.breakers.Values))
      ensures limits.buckets == old(limits.buckets)
      ensures ok == PB.Allows(cfg.breaker, old(Shared(provider)).breaker, now)
      ensures Shared(provider) ==
                var p := old(Shared(provider));
                p.(breaker := PB.AfterAllow(cfg.breaker, p.breaker, now))
      ensures forall q :: q != provider ==> Shared(q) == old(Shared(q))
    {
      hide PB.Allows, PB.AfterAllow;
      ok := breakers.EnsureAllowed(provider, now);
    }

    /** `rate_limiters.ensure_allowed(...)` */
    method AskBucket(provider: string, now: real) returns (ok: bool)
      requires Valid(now)
      modifies limits, limits.buckets.Values
      ensures Valid(now)
      ensures fresh(limits.buckets.Values - old(limits.buckets.Values))
      ensures breakers.breakers == old(breakers.breakers)
      ensures ok == Permits(cfg.quota, old(Shared(provider)).bucket, now)
      ensures Shared(provider) ==
                var p := old(Shared(provider));
                p.(bucket := AfterPermit(cfg.quota, p.bucket, now))
      ensures forall q :: q != provider ==> Shared(q) == old(Shared(q))
    {
      hide Permits, AfterPermit;
      ok := limits.EnsureAllowed(provider, now);
    }

    /** The second half: the outcome is reported to the provider's breaker. */
    method End(provider: string, ok: bool, now: real)
      requires Valid(now)
      modifies breakers, breakers.breakers.Values
      ensures Valid(now)
      ensures fresh(breakers.breakers.Values - old(breakers.breakers.Values))
      ensures limits.buckets == old(limits.buckets)
      ensures Shared(provider) == AfterEnd(cfg, old(Shared(provider)), ok, now)
      ensures forall q :: q != provider ==> Shared(q) == old(Shared(q))
    {
      breakers.Record(provider, ok, now);
    }

    /**
     * One whole attempt: its log entry and its steps follow from the shared state it found and from the
     * outcome, and a candidate comes of it exactly when the entry is a success.
     */
    method RunAttempt(m: Model, outcome: Outcome, start: real, end: real)
      returns (candidate: Option<string>, entry: Attempt)
      requires Valid(start) && start <= end
      modifies breakers, breakers.breakers.Values, limits, limits.buckets.Values
      ensures Valid(end)
      ensures fresh(breakers.breakers.Values - old(breakers.breakers.Values))
      ensures fresh(limits.buckets.Values - old(limits.buckets.Values))
      ensures entry == AttemptEntry(cfg, providers, SharedIn(old(Snapshot()), m.provider), m, outcome, start)
      ensures candidate == if entry.Success? then Some(outcome.text) else None
      ensures candidate.Some? <==>
                m.provider in providers && LetThrough(cfg, SharedIn(old(Snapshot()), m.provider), start)
                && outcome.Completed?
      ensures Moves(cfg, old(Snapshot()), Snapshot(), m.provider, StepsOf(entry, outcome, start, end))
    {
      SnapshotShows();
      EntryTells(cfg, providers, SharedIn(Snapshot(), m.provider), m, outcome, start);
      candidate, entry := AttemptSteps(m, outcome, start, end);
      hide LetThrough;
      hide GateOf, ProviderAfter, Permits, AttemptEntry, StepsOf, Valid;
      SnapshotShows();
      hide Shared, Snapshot, SharedIn;
    }

    /** The same, provider by provider. */
    method AttemptSteps(m: Model, outcome: Outcome, start: real, end: real)
      returns (candidate: Option<string>, entry: Attempt)
      requires Valid(start) && start <= end
      modifies breakers, breakers.breakers.Values, limits, limits.buckets.Values
      ensures Valid(end)
      ensures fresh(breakers.breakers.Values - old(breakers.breakers.Values))
      ensures fresh(limits.buckets.Values - old(limits.buckets.Values))
      ensures entry == AttemptEntry(cfg, providers, old(Shared(m.provider)), m, outcome, start)
      ensures candidate == if entry.Success? then Some(outcome.text) else None
      ensures Shared(m.provider) ==
                ProviderAfter(cfg, old(Shared(m.provider)), StepsOf(entry, outcome, start, end), m.provider)
      ensures forall q :: q != m.provider ==> Shared(q) == old(Shared(q))
    {
      hide GateOf, AfterBegin, AfterEnd, ProviderAfter, Permits;
      NoStep(cfg, old(Shared(m.provider)), m.provider);
      if m.provider !in providers {
        return None, Skipped(m, UNAVAILABLE);
      }
      var gate := Begin(m.provider, start);
      OneStep(cfg, old(Shared(m.provider)), Began(m.provider, start));
      if !gate.Started? {
        return None, Skipped(m, if gate.CircuitSkipped? then "CIRCUIT_OPEN" else "RATE_LIMITED");
      }
      TwoSteps(cfg, old(Shared(m.provider)), Began(m.provider, start), Ended(m.provider, outcome.Completed?, end));
      End(m.provider, outcome.Completed?, end);
      candidate := if outcome.Completed? then Some(outcome.text) else None;
      entry := EntryOf(m, outcome);
    }

    lemma StaysValid(now: real, later: real)
      requires Valid(now) && now <= later
      ensures Valid(later)
    {
    }

    /**
     * The fallback strategy: targets are tried in order until one succeeds. The log has one entry per
     * target tried, in order, each decided by the shared state that the attempts before it left, and only
     * the last can be a success; without one the log decides the error. Attempt k starts at clock(2k) and
     * ends at clock(2k + 1). Run alone, the request changes the shared state by its own steps, in order,
     * and by nothing else. The answer is the text of the first target that is configured, let through by its
     * breaker and its bucket, and completed; no later target is tried, and there is no answer only if there
     * is no such target.
     */
    method RunFallback(targets: seq<Model>, upstream: nat -> Outcome, clock: nat -> real)
      returns (candidate: Option<string>, attempts: seq<Attempt>, error: Option<Error>)
      requires Valid(clock(0)) && forall i: nat, j: nat :: i <= j ==> clock(i) <= clock(j)
      modifies breakers, breakers.breakers.Values, limits, limits.buckets.Values
      ensures |attempts| <= |targets|
      ensures attempts == FallbackLog(cfg, providers, old(Snapshot()), targets, upstream, clock, |attempts|)
      ensures forall k :: 0 <= k < |attempts| - 1 ==> !attempts[k].Success?
      ensures candidate.Some? <==> attempts != [] && Last(attempts).Success?
      ensures candidate.Some? ==> upstream(|attempts| - 1) == Completed(candidate.value) && error == None
      ensures candidate == None ==> |attempts| == |targets| && error == Some(AttemptsToError(attempts))
      ensures Follows(cfg, old(Snapshot()), Snapshot(), attempts, upstream, clock)
      ensures forall k: nat :: k < |targets| && (candidate == None || k + 1 < |attempts|) ==>
                !Answers(cfg, providers, old(Snapshot()), targets, upstream, clock, k)
      ensures candidate.Some? ==>
                var k := |attempts| - 1;
                && Answers(cfg, providers, old(Snapshot()), targets, upstream, clock, k)
                && candidate.value == upstream(k).text
    {
      hide Answers;
      hide AttemptEntry, StepsOf, SharedIn, Moves, Tried, NoSuccess, FallbackLog, Follows;
      hide AttemptsToError, Valid, Snapshot;
      ghost var start := Snapshot();
      attempts := [];
      NoAttempts(cfg, providers, start, targets, upstream, clock);
      var k := 0;
      while k < |targets|
        invariant k == |attempts| <= |targets| && Valid(clock(2 * k))
        invariant fresh(breakers.breakers.Values - old(breakers.breakers.Values))
        invariant fresh(limits.buckets.Values - old(limits.buckets.Values))
        invariant NoSuccess(attempts) && Tried(cfg, providers, start, Snapshot(), targets, attempts, upstream, clock)
      {
        ghost var found := Snapshot();
        var answer, entry := RunAttempt(targets[k], upstream(k), clock(2 * k), clock(2 * k + 1));
        StaysValid(clock(2 * k + 1), clock(2 * k + 2));
        NextAttempt(cfg, providers, start, found, Snapshot(), targets, attempts, entry, upstream, clock);
        attempts := attempts + [entry];
        if answer.Some? {
          WhatWasTried(cfg, providers, start, Snapshot(), targets, attempts, upstream, clock);
          return answer, attempts, None;
        }
        k := k + 1;
      }
      WhatWasTried(cfg, providers, start, Snapshot(), targets, attempts, upstream, clock);
      return None, attempts, Some(AttemptsToError(attempts));
    }
  }

  /**
   * The first k entries of the log of a fallback request that found the shared state `start`: every entry
   * is decided by what the attempts before it left of its provider.
   */
  ghost function FallbackLog(cfg: Config, providers: set<string>, start: Registry, targets: seq<Model>,
                             upstream: nat -> Outcome, clock: nat -> real, k: nat): (log: seq<Attempt>)
    requires k <= |targets|
    ensures |log| == k
  {
    if k == 0 then []
    else
      var before := FallbackLog(cfg, providers, start, targets, upstream, clock, k - 1);
      var m := targets[k - 1];
      var found := FoundAfter(cfg, SharedIn(start, m.provider), before, m.provider, upstream, clock);
      before + [AttemptEntry(cfg, providers, found, m, upstream(k - 1), clock(2 * (k - 1)))]
  }

  /** Both guards let a call through: the breaker, and then the bucket. */
  predicate LetThrough(cfg: Config, p: Provider, now: real) {
    PB.Allows(cfg.breaker, p.breaker, now) && Permits(cfg.quota, p.bucket, now)
  }

  /** What an attempt leaves of its provider. */
  function AttemptLeaves(cfg: Config, p: Provider, ok: bool, start: real, end: real): Provider {
    if !PB.Allows(cfg.breaker, p.breaker, start) then p
    else
      var asked := Provider(PB.AfterAllow(cfg.breaker, p.breaker, start), AfterPermit(cfg.quota, p.bucket, start));
      if !Permits(cfg.quota, p.bucket, start) then asked
      else if ok then asked.(breaker := PB.AfterSuccess(asked.breaker))
      else asked.(breaker := PB.AfterFailure(cfg.breaker, asked.breaker, end))
  }

  /** A provider as target k of a fallback request finds it, if it comes to that. */
  function StateFound(cfg: Config, providers: set<string>, start: Registry, targets: seq<Model>,
                      upstream: nat -> Outcome, clock: nat -> real, k: nat, provider: string): Provider
    requires k <= |targets|
  {
    if k == 0 then SharedIn(start, provider)
    else
      var p := StateFound(cfg, providers, start, targets, upstream, clock, k - 1, provider);
      if targets[k - 1].provider != provider || provider !in providers then p
      else AttemptLeaves(cfg, p, upstream(k - 1).Completed?, clock(2 * (k - 1)), clock(2 * (k - 1) + 1))
  }

  /** Target k is configured, let through by its guards in the state it finds, and completes. */
  predicate Answers(cfg: Config, providers: set<string>, start: Registry, targets: seq<Model>,
                    upstream: nat -> Outcome, clock: nat -> real, k: nat)
    requires k < |targets|
  {
    var provider := targets[k].provider;
    && provider in providers
    && LetThrough(cfg, StateFound(cfg, providers, start, targets, upstream, clock, k, provider), clock(2 * k))
    && upstream(k).Completed?
  }

  /** What the log says of an attempt: the guard that refused it, or what the provider made of it. */
  lemma EntryTells(cfg: Config, providers: set<string>, p: Provider, m: Model, o: Outcome, now: real)
    ensures AttemptEntry(cfg, providers, p, m, o, now) ==
            if m.provider !in providers then Skipped(m, "provider_unavailable")
            else if !PB.Allows(cfg.breaker, p.breaker, now) then Skipped(m, "CIRCUIT_OPEN")
            else if !Permits(cfg.quota, p.bucket, now) then Skipped(m, "RATE_LIMITED")
            else
              match o
              case Completed(_) => Success(m)
              case ProviderTimeout => Failure(m, "PROVIDER_TIMEOUT")
              case ProviderError(code) => Failure(m, code)
              case Crash => Failure(m, "INTERNAL_ERROR")
  {
  }

  lemma StepsLeave(cfg: Config, providers: set<string>, p: Provider, m: Model, o: Outcome, start: real, end: real)
    ensures var entry := AttemptEntry(cfg, providers, p, m, o, start);
            ProviderAfter(cfg, p, StepsOf(entry, o, start, end), m.provider) ==
            if m.provider in providers then AttemptLeaves(cfg, p, o.Completed?, start, end) else p
  {
    NoStep(cfg, p, m.provider);
    OneStep(cfg, p, Began(m.provider, start));
    TwoSteps(cfg, p, Began(m.provider, start), Ended(m.provider, o.Completed?, end));
    RefusalKeepsBreaker(cfg.breaker, p.breaker, start);
    hide ProviderAfter, Permits, AfterPermit, PB.Allows, PB.AfterAllow, PB.AfterSuccess, PB.AfterFailure;
  }

  /** The state a log leaves is the state its next target finds. */
  lemma {:induction false} LogLeavesStateFound(
      cfg: Config, providers: set<string>, start: Registry, targets: seq<Model>,
      upstream: nat -> Outcome, clock: nat -> real, k: nat, provider: string)
    requires k <= |targets|
    ensures FoundAfter(cfg, SharedIn(start, provider), FallbackLog(cfg, providers, start, targets, upstream, clock, k),
                       provider, upstream, clock)
            == StateFound(cfg, providers, start, targets, upstream, clock, k, provider)
  {
    if k > 0 {
      var j: nat := k - 1;
      var m, before := targets[j], FallbackLog(cfg, providers, start, targets, upstream, clock, j);
      var found := FoundAfter(cfg, SharedIn(start, m.provider), before, m.provider, upstream, clock);
      var entry := AttemptEntry(cfg, providers, found, m, upstream(j), clock(2 * j));
      assert FallbackLog(cfg, providers, start, targets, upstream, clock, k) == before + [entry];
      StateFoundStep(cfg, providers, start, targets, upstream, clock, j, provider);
      hide FallbackLog, StateFound, FoundAfter, AttemptEntry, AttemptLeaves, StepsOf, ProviderAfter, SharedIn;
      LogLeavesStateFound(cfg, providers, start, targets, upstream, clock, j, provider);
      LogLeavesStateFound(cfg, providers, start, targets, upstream, clock, j, m.provider);
      EntryIsForModel(cfg, providers, found, m, upstream(j), clock(2 * j));
      StepsLeave(cfg, providers, found, m, upstream(j), clock(2 * j), clock(2 * j + 1));
      TraceSnoc(cfg, SharedIn(start, provider), before, entry, upstream, clock, provider);
    } else {
      assert TraceOf([], upstream, clock) == [];
    }
  }

  lemma StateFoundStep(cfg: Config, providers: set<string>, start: Registry, targets: seq<Model>,
                       upstream: nat -> Outcome, clock: nat -> real, j: nat, provider: string)
    requires j < |targets|
    ensures var p := StateFound(cfg, providers, start, targets, upstream, clock, j, provider);
            StateFound(cfg, providers, start, targets, upstream, clock, j + 1, provider) ==
            if targets[j].provider != provider || provider !in providers then p
            else AttemptLeaves(cfg, p, upstream(j).Completed?, clock(2 * j), clock(2 * j + 1))
  {
    hide AttemptLeaves, SharedIn;
  }

  /**
   * Entry k of the log belongs to target k, and tells which guard refused it in the state it found, or what
   * its provider made of it.
   */
  lemma FallbackEntry(cfg: Config, providers: set<string>, start: Registry, targets: seq<Model>,
                      upstream: nat -> Outcome, clock: nat -> real, n: nat, k: nat)
    requires k < n <= |targets|
    ensures var log, m := FallbackLog(cfg, providers, start, targets, upstream, clock, n), targets[k];
            var p := StateFound(cfg, providers, start, targets, upstream, clock, k, m.provider);
            && log[k] == (if m.provider !in providers then Skipped(m, "provider_unavailable")
                          else if !PB.Allows(cfg.breaker, p.breaker, clock(2 * k)) then Skipped(m, "CIRCUIT_OPEN")
                          else if !Permits(cfg.quota, p.bucket, clock(2 * k)) then Skipped(m, "RATE_LIMITED")
                          else
                            match upstream(k)
                            case Completed(_) => Success(m)
                            case ProviderTimeout => Failure(m, "PROVIDER_TIMEOUT")
                            case ProviderError(code) => Failure(m, code)
                            case Crash => Failure(m, "INTERNAL_ERROR"))
            && (log[k].Success? <==> Answers(cfg, providers, start, targets, upstream, clock, k))
  {
    var log, m := FallbackLog(cfg, providers, start, targets, upstream, clock, n), targets[k];
    LogLeavesStateFound(cfg, providers, start, targets, upstream, clock, k, m.provider);
    EntryTells(cfg, providers, StateFound(cfg, providers, start, targets, upstream, clock, k, m.provider), m,
               upstream(k), clock(2 * k));
    FallbackPrefix(cfg, providers, start, targets, upstream, clock, n, k);
    FallbackPrefix(cfg, providers, start, targets, upstream, clock, n, k + 1);
    hide FoundAfter, AttemptEntry, SharedIn, StateFound, Permits, PB.Allows;
    assert log[k] == log[..k + 1][k];
  }

  lemma {:induction false} FallbackPrefix(cfg: Config, providers: set<string>, start: Registry, targets: seq<Model>,
                                          upstream: nat -> Outcome, clock: nat -> real, n: nat, k: nat)
    requires k <= n <= |targets|
    ensures FallbackLog(cfg, providers, start, targets, upstream, clock, n)[..k] ==
            FallbackLog(cfg, providers, start, targets, upstream, clock, k)
  {
    hide FoundAfter, AttemptEntry, SharedIn;
    if k < n {
      FallbackPrefix(cfg, providers, start, targets, upstream, clock, n - 1, k);
      var log := FallbackLog(cfg, providers, start, targets, upstream, clock, n);
      assert log[..k] == log[..n - 1][..k];
    } else {
      var log := FallbackLog(cfg, providers, start, targets, upstream, clock, n);
      assert log[..n] == log;
    }
  }

  /** A request fails with the last real failure it logged, or, if it only skipped, as unavailable. */
  lemma {:induction false} ErrorIsLastFailure(attempts: seq<Attempt>)
    ensures AttemptsToError(attempts) == NoProviderAvailable <==> forall a :: a in attempts ==> !a.Failure?
    ensures AttemptsToError(attempts).ProviderFailed? ==>
              exists k :: 0 <= k < |attempts| && attempts[k].Failure?
                && AttemptsToError(attempts) == ProviderFailed(attempts[k].model.provider, attempts[k].code)
                && forall i :: k < i < |attempts| ==> !attempts[i].Failure?
  {
    if attempts != [] {
      assert attempts == Init(attempts) + [Last(attempts)];
      if Last(attempts).Failure? {
        assert attempts[|attempts| - 1] in attempts;
      } else {
        ErrorIsLastFailure(Init(attempts));
      }
    }
  }

  // ---------------------------------------------------------------- any mix of requests

  /** A step of some attempt on some provider, or of a reset of its breaker; the steps interleave freely. */
  datatype Event =
    | Began(provider: string, at: real)
    | Ended(provider: string, ok: bool, at: real)
    | BreakerReset(provider: string, at: real)

  function Step(cfg: Config, p: Provider, e: Event, provider: string): Provider {
    if e.provider != provider then p
    else
      match e
      case Began(_, at) => AfterBegin(cfg, p, at)
      case Ended(_, ok, at) => AfterEnd(cfg, p, ok, at)
      case BreakerReset(_, _) => p.(breaker := PB.INITIAL)
  }

  function ProviderAfter(cfg: Config, start: Provider, events: seq<Event>, provider: string): Provider {
    if events == [] then start
    else Step(cfg, ProviderAfter(cfg, start, Init(events), provider), Last(events), provider)
  }

  /** What a fallback request has done: its log so far, and what that made of the registries. */
  ghost predicate Tried(cfg: Config, providers: set<string>, r0: Registry, r1: Registry, targets: seq<Model>,
                        attempts: seq<Attempt>, upstream: nat -> Outcome, clock: nat -> real) {
    && |attempts| <= |targets|
    && attempts == FallbackLog(cfg, providers, r0, targets, upstream, clock, |attempts|)
    && Follows(cfg, r0, r1, attempts, upstream, clock)
  }

  ghost predicate NoSuccess(attempts: seq<Attempt>) {
    forall k :: 0 <= k < |attempts| ==> !attempts[k].Success?
  }

  lemma NoAttempts(cfg: Config, providers: set<string>, r: Registry, targets: seq<Model>,
                   upstream: nat -> Outcome, clock: nat -> real)
    ensures NoSuccess([]) && Tried(cfg, providers, r, r, targets, [], upstream, clock)
  {
  }

  lemma WhatWasTried(cfg: Config, providers: set<string>, r0: Registry, r1: Registry, targets: seq<Model>,
                     attempts: seq<Attempt>, upstream: nat -> Outcome, clock: nat -> real)
    requires Tried(cfg, providers, r0, r1, targets, attempts, upstream, clock)
    requires NoSuccess(attempts) || (attempts != [] && NoSuccess(Init(attempts)))
    ensures |attempts| <= |targets| && Follows(cfg, r0, r1, attempts, upstream, clock)
    ensures attempts == FallbackLog(cfg, providers, r0, targets, upstream, clock, |attempts|)
    ensures forall k :: 0 <= k < |attempts| - 1 ==> !attempts[k].Success?
    ensures NoSuccess(attempts) ==> attempts == [] || !Last(attempts).Success?
    ensures forall k: nat :: k < |attempts| ==>
              (attempts[k].Success? <==> Answers(cfg, providers, r0, targets, upstream, clock, k))
  {
    forall k: nat | k < |attempts|
      ensures attempts[k].Success? <==> Answers(cfg, providers, r0, targets, upstream, clock, k)
    {
      FallbackEntry(cfg, providers, r0, targets, upstream, clock, |attempts|, k);
    }
    hide Follows, FallbackLog, Answers;
    assert attempts != [] ==> forall k :: 0 <= k < |attempts| - 1 ==> Init(attempts)[k] == attempts[k];
  }

  /** One more attempt: it found what the log before it left, and its steps continue the log's. */
  lemma NextAttempt(cfg: Config, providers: set<string>, r0: Registry, r1: Registry, r2: Registry,
                    targets: seq<Model>, attempts: seq<Attempt>, entry: Attempt,
                    upstream: nat -> Outcome, clock: nat -> real)
    requires Tried(cfg, providers, r0, r1, targets, attempts, upstream, clock) && |attempts| < |targets|
    requires NoSuccess(attempts)
    requires var k, m := |attempts|, targets[|attempts|];
             && entry == AttemptEntry(cfg, providers, SharedIn(r1, m.provider), m, upstream(k), clock(2 * k))
             && Moves(cfg, r1, r2, m.provider, StepsOf(entry, upstream(k), clock(2 * k), clock(2 * k + 1)))
    ensures Tried(cfg, providers, r0, r2, targets, attempts + [entry], upstream, clock)
    ensures Init(attempts + [entry]) == attempts && (NoSuccess(attempts + [entry]) <==> !entry.Success?)
    ensures entry.Success? ==> upstream(|attempts|).Completed?
  {
    var m := targets[|attempts|];
    EntryIsForModel(cfg, providers, SharedIn(r1, m.provider), m, upstream(|attempts|), clock(2 * |attempts|));
    hide AttemptEntry, StepsOf, FoundAfter, ProviderAfter, SharedIn;
    forall q
      ensures SharedIn(r2, q) == FoundAfter(cfg, SharedIn(r0, q), attempts + [entry], q, upstream, clock)
    {
      TraceSnoc(cfg, SharedIn(r0, q), attempts, entry, upstream, clock, q);
    }
    assert (attempts + [entry])[|attempts|] == entry;
  }

  lemma EntryIsForModel(cfg: Config, providers: set<string>, p: Provider, m: Model, o: Outcome, now: real)
    ensures var entry := AttemptEntry(cfg, providers, p, m, o, now);
            entry.model == m && (entry.Success? ==> o.Completed?)
  {
  }

  lemma StepsAreOnOneProvider(entry: Attempt, o: Outcome, start: real, end: real)
    ensures forall e :: e in StepsOf(entry, o, start, end) ==> e.provider == entry.model.provider
  {
  }

  lemma TraceSnoc(cfg: Config, p: Provider, attempts: seq<Attempt>, entry: Attempt,
                                     upstream: nat -> Outcome, clock: nat -> real, provider: string)
    ensures var k, found := |attempts|, FoundAfter(cfg, p, attempts, provider, upstream, clock);
            FoundAfter(cfg, p, attempts + [entry], provider, upstream, clock) ==
            if provider != entry.model.provider then found
            else ProviderAfter(cfg, found, StepsOf(entry, upstream(k), clock(2 * k), clock(2 * k + 1)), provider)
  {
    hide ProviderAfter, StepsOf;
    var k, before := |attempts|, TraceOf(attempts, upstream, clock);
    var steps := StepsOf(entry, upstream(k), clock(2 * k), clock(2 * k + 1));
    assert Init(attempts + [entry]) == attempts;
    StepsCompose(cfg, p, before, steps, provider);
    if provider != entry.model.provider {
      StepsAreOnOneProvider(entry, upstream(k), clock(2 * k), clock(2 * k + 1));
      OthersUntouched(cfg, ProviderAfter(cfg, p, before, provider), steps, provider);
    }
  }

  /** The steps of a log lie in order between its first and last reading of the clock. */
  lemma {:induction false} TraceInOrder(attempts: seq<Attempt>, upstream: nat -> Outcome, clock: nat -> real)
    requires forall i: nat, j: nat :: i <= j ==> clock(i) <= clock(j)
    ensures Chronological(TraceOf(attempts, upstream, clock))
    ensures forall e :: e in TraceOf(attempts, upstream, clock) ==> clock(0) <= e.at <= clock(2 * |attempts|)
  {
    if attempts != [] {
      var k := |attempts| - 1;
      TraceInOrder(Init(attempts), upstream, clock);
      var before := TraceOf(Init(attempts), upstream, clock);
      var steps := StepsOf(Last(attempts), upstream(k), clock(2 * k), clock(2 * k + 1));
      assert clock(2 * k) <= clock(2 * k + 1) <= clock(2 * k + 2) && clock(0) <= clock(2 * k);
      hide StepsOf, TraceOf;
      var all := before + steps;
      StepsInOrder(Last(attempts), upstream(k), clock(2 * k), clock(2 * k + 1));
      forall i, j | 0 <= i <= j < |all|
        ensures all[i].at <= all[j].at
      {
        assert i < |before| ==> all[i] in before;
        assert j >= |before| ==> all[j] in steps;
      }
    }
  }

  lemma StepsInOrder(entry: Attempt, o: Outcome, start: real, end: real)
    requires start <= end
    ensures Chronological(StepsOf(entry, o, start, end))
    ensures forall e :: e in StepsOf(entry, o, start, end) ==> start <= e.at <= end
  {
  }

  lemma {:induction false} StepsCompose(cfg: Config, p: Provider, e1: seq<Event>, e2: seq<Event>, provider: string)
    ensures ProviderAfter(cfg, p, e1 + e2, provider) ==
            ProviderAfter(cfg, ProviderAfter(cfg, p, e1, provider), e2, provider)
  {
    hide Step;
    if e2 == [] {
      assert e1 + e2 == e1;
    } else {
      StepsCompose(cfg, p, e1, Init(e2), provider);
      assert Init(e1 + e2) == e1 + Init(e2) && Last(e1 + e2) == Last(e2);
    }
  }

  lemma {:induction false} OthersUntouched(cfg: Config, p: Provider, events: seq<Event>, provider: string)
    requires forall e :: e in events ==> e.provider != provider
    ensures ProviderAfter(cfg, p, events, provider) == p
  {
    if events != [] {
      assert Last(events) in events;
      OthersUntouched(cfg, p, Init(events), provider);
    }
  }

  lemma NoStep(cfg: Config, p: Provider, provider: string)
    ensures ProviderAfter(cfg, p, [], provider) == p
  {
  }

  lemma OneStep(cfg: Config, p: Provider, e: Event)
    ensures ProviderAfter(cfg, p, [e], e.provider) == Step(cfg, p, e, e.provider)
  {
    assert Init([e]) == [];
  }

  lemma TwoSteps(cfg: Config, p: Provider, e: Event, f: Event)
    requires e.provider == f.provider
    ensures ProviderAfter(cfg, p, [e, f], e.provider) == Step(cfg, Step(cfg, p, e, e.provider), f, e.provider)
  {
    assert Init([e, f]) == [e];
    OneStep(cfg, p, e);
  }

  ghost predicate Chronological(events: seq<Event>) {
    forall i, j :: 0 <= i <= j < |events| ==> events[i].at <= events[j].at
  }

  /** Whether step k starts a call on the provider. */
  predicate Starts(cfg: Config, events: seq<Event>, provider: string, k: nat)
    requires k < |events|
  {
    events[k].Began? && events[k].provider == provider &&
    GateOf(cfg, ProviderAfter(cfg, UNUSED, events[..k], provider), events[k].at).Started?
  }

  /** Calls started on the provider by steps i, ..., j - 1. */
  function StartCount(cfg: Config, events: seq<Event>, provider: string, i: nat, j: nat): nat
    requires i <= j <= |events|
    decreases j - i
  {
    if i == j then 0
    else StartCount(cfg, events, provider, i, j - 1) + (if Starts(cfg, events, provider, j - 1) then 1 else 0)
  }

  /** Tokens of the provider at step j. */
  function Tokens(cfg: Config, events: seq<Event>, provider: string, j: nat): real
    requires j < |events|
  {
    Level(ProviderAfter(cfg, UNUSED, events[..j], provider).bucket, ParamsOf(cfg.quota), events[j].at)
  }

  /** A bucket gains at most the refill, and at most up to its burst. */
  lemma LevelGrows(bucket: Option<Bucket>, p: Params, t: real, later: real)
    requires p.refill >= 0.0 && t <= later
    requires bucket.Some? ==> bucket.value.updatedAt <= t
    ensures Level(bucket, p, later) <= Level(bucket, p, t) + Accrued(p, later - t)
    ensures Level(bucket, p, later) <= p.capacity as real
  {
    hide Accrued;
    AccruedZero(p);
    AccruedMonotone(p, 0.0, later - t);
    if bucket.Some? {
      AccruedAdds(p, t - bucket.value.updatedAt, later - t);
    }
  }

  lemma {:induction false} BucketStamp(cfg: Config, events: seq<Event>, provider: string, t: real)
    requires Chronological(events) && forall e :: e in events ==> e.at <= t
    ensures var b := ProviderAfter(cfg, UNUSED, events, provider).bucket;
            b.Some? ==> b.value.updatedAt <= t
  {
    if events != [] {
      hide Level;
      assert Last(events) in events && forall e :: e in Init(events) ==> e in events;
      BucketStamp(cfg, Init(events), provider, t);
    }
  }

  /** From one step to the next, a started call costs a token and time returns at most the refill. */
  lemma TokensStep(cfg: Config, events: seq<Event>, provider: string, j: nat)
    requires 0 < j < |events| && Chronological(events) && cfg.quota.ratePerMinute > 0
    ensures Tokens(cfg, events, provider, j) <=
              Tokens(cfg, events, provider, j - 1)
              - (if Starts(cfg, events, provider, j - 1) then 1.0 else 0.0)
              + Accrued(ParamsOf(cfg.quota), events[j].at - events[j - 1].at)
  {
    hide Accrued, PB.Allows, PB.AfterAllow, PB.AfterFailure, PB.AfterSuccess;
    var p, before, e := ParamsOf(cfg.quota), events[..j - 1], events[j - 1];
    assert Init(events[..j]) == before && Last(events[..j]) == e;
    assert e.at <= events[j].at;
    forall x | x in before
      ensures x.at <= e.at
    {
      var i :| 0 <= i < j - 1 && x == events[i];
    }
    BucketStamp(cfg, before, provider, e.at);
    var s := ProviderAfter(cfg, UNUSED, before, provider);
    var next := Step(cfg, s, e, provider);
    LevelGrows(next.bucket, p, e.at, events[j].at);
    BucketLevelNow(cfg, s, e, provider);
  }

  /** What a step leaves in the bucket, read at the same instant. */
  lemma BucketLevelNow(cfg: Config, s: Provider, e: Event, provider: string)
    requires cfg.quota.ratePerMinute > 0
    requires s.bucket.Some? ==> s.bucket.value.updatedAt <= e.at
    ensures var next, p := Step(cfg, s, e, provider), ParamsOf(cfg.quota);
            && (next.bucket.Some? ==> next.bucket.value.updatedAt <= e.at)
            && Level(next.bucket, p, e.at) <=
                 Level(s.bucket, p, e.at)
                 - (if e.Began? && e.provider == provider && GateOf(cfg, s, e.at).Started? then 1.0 else 0.0)
  {
    hide Accrued, PB.Allows, PB.AfterAllow, PB.AfterFailure, PB.AfterSuccess;
    AccruedZero(ParamsOf(cfg.quota));
  }

  lemma {:induction false} WindowPotential(cfg: Config, events: seq<Event>, provider: string, i: nat, j: nat)
    requires i <= j < |events| && Chronological(events) && cfg.quota.ratePerMinute > 0
    ensures StartCount(cfg, events, provider, i, j) as real + Tokens(cfg, events, provider, j) <=
            cfg.quota.burst as real + Accrued(ParamsOf(cfg.quota), events[j].at - events[i].at)
    decreases j
  {
    var p := ParamsOf(cfg.quota);
    hide Accrued, Starts, ProviderAfter;
    AccruedZero(p);
    if i < j {
      hide Level;
      WindowPotential(cfg, events, provider, i, j - 1);
      TokensStep(cfg, events, provider, j);
      AccruedAdds(p, events[j - 1].at - events[i].at, events[j].at - events[j - 1].at);
    }
  }

  lemma {:induction false} StartsWithinAccrual(cfg: Config, events: seq<Event>, provider: string, i: nat, j: nat)
    requires i <= j < |events| && Chronological(events) && cfg.quota.ratePerMinute > 0
    ensures StartCount(cfg, events, provider, i, j + 1) as real <=
            cfg.quota.burst as real + Accrued(ParamsOf(cfg.quota), events[j].at - events[i].at)
    decreases j
  {
    var p := ParamsOf(cfg.quota);
    hide Accrued, ProviderAfter;
    if Starts(cfg, events, provider, j) {
      WindowPotential(cfg, events, provider, i, j);
    } else if i < j {
      StartsWithinAccrual(cfg, events, provider, i, j - 1);
      assert events[j - 1].at <= events[j].at;
      AccruedMonotone(p, events[j - 1].at - events[i].at, events[j].at - events[i].at);
    } else {
      AccruedZero(p);
      assert StartCount(cfg, events, provider, i, j + 1) == StartCount(cfg, events, provider, i, i);
    }
  }

  /**
   * Provider call budget. Over any run of any requests, the calls started on one provider within any
   * span of time number at most the burst plus the rate times that span.
   */
  lemma StartsWithinBudget(cfg: Config, events: seq<Event>, provider: string, i: nat, j: nat)
    requires i <= j < |events| && Chronological(events) && cfg.quota.ratePerMinute > 0
    ensures StartCount(cfg, events, provider, i, j + 1) as real <=
            cfg.quota.burst as real + (events[j].at - events[i].at) * (cfg.quota.ratePerMinute as real / 60.0)
  {
    hide StartCount, Starts;
    StartsWithinAccrual(cfg, events, provider, i, j);
  }

  /** What a provider's breaker sees of a run. */
  function BreakerEvents(events: seq<Event>, provider: string): seq<PB.Event> {
    if events == [] then []
    else
      var before, e := BreakerEvents(Init(events), provider), Last(events);
      if e.provider != provider then before
      else
        before + [match e
                  case Began(_, at) => PB.Ask(at)
                  case Ended(_, ok, at) => if ok then PB.Succeed(at) else PB.Fail(at)
                  case BreakerReset(_, at) => PB.Reset(at)]
  }

  lemma {:induction false} BreakerProjection(cfg: Config, events: seq<Event>, provider: string)
    ensures ProviderAfter(cfg, UNUSED, events, provider).breaker ==
            PB.StateAfter(cfg.breaker, BreakerEvents(events, provider))
  {
    if events != [] {
      BreakerProjection(cfg, Init(events), provider);
      if Last(events).provider == provider {
        assert Init(BreakerEvents(events, provider)) == BreakerEvents(Init(events), provider);
      }
    }
  }

  lemma {:induction false} ProjectionOrdered(events: seq<Event>, provider: string, t: real)
    requires Chronological(events) && forall e :: e in events ==> e.at <= t
    ensures PB.Chronological(BreakerEvents(events, provider))
    ensures forall e :: e in BreakerEvents(events, provider) ==> e.at <= t
  {
    if events != [] {
      assert Last(events) in events;
      forall e | e in Init(events)
        ensures e.at <= Last(events).at
      {
        var i :| 0 <= i < |events| - 1 && e == events[i];
      }
      ProjectionOrdered(Init(events), provider, Last(events).at);
    }
  }

  /**
   * The breaker rule over whole runs: an attempt gets past a provider's breaker exactly when fewer
   * than `failureThreshold` failures of that provider were reported since its last success or reset, or
   * the last of them was reported at least `recoverySeconds` ago.
   */
  lemma CircuitSkipsExactly(cfg: Config, events: seq<Event>, provider: string, now: real)
    requires PB.Sound(cfg.breaker) && Chronological(events + [Began(provider, now)])
    ensures var fails := PB.FailuresSince(BreakerEvents(events, provider));
            GateOf(cfg, ProviderAfter(cfg, UNUSED, events, provider), now).CircuitSkipped? <==>
            |fails| >= cfg.breaker.failureThreshold && now - Last(fails) < cfg.breaker.recoverySeconds
  {
    var run := events + [Began(provider, now)];
    assert forall i :: 0 <= i < |events| ==> run[i] == events[i];
    assert run[|events|].at == now;
    var seen := BreakerEvents(events, provider);
    ProjectionOrdered(events, provider, now);
    assert PB.Chronological(seen + [PB.Ask(now)]);
    BreakerProjection(cfg, events, provider);
    PB.BreakerIsOneRule(cfg.breaker, seen, now);
  }

  /** The calls that reach the bucket of a provider: the attempts its breaker lets through. */
  function BucketCalls(cfg: Config, events: seq<Event>, provider: string): seq<Call> {
    if events == [] then []
    else
      var before, e := BucketCalls(cfg, Init(events), provider), Last(events);
      if e.provider == provider && e.Began?
         && PB.Allows(cfg.breaker, ProviderAfter(cfg, UNUSED, Init(events), provider).breaker, e.at)
      then before + [Call(e.at, 1)]
      else before
  }

  lemma {:induction false} BucketIsDrain(cfg: Config, events: seq<Event>, provider: string)
    requires cfg.quota.ratePerMinute > 0
    ensures ProviderAfter(cfg, UNUSED, events, provider).bucket ==
            Drain(None, BucketCalls(cfg, events, provider),
                  Params(cfg.quota.burst, cfg.quota.ratePerMinute as real / 60.0))
  {
    if events != [] {
      var p := Params(cfg.quota.burst, cfg.quota.ratePerMinute as real / 60.0);
      var before, e := BucketCalls(cfg, Init(events), provider), Last(events);
      BucketIsDrain(cfg, Init(events), provider);
      DrainSnoc(None, before, Call(e.at, 1), p);
      hide Drain, After, PB.Allows, PB.AfterAllow, PB.AfterFailure, PB.AfterSuccess;
    }
  }

  lemma OneMoreCall(calls: seq<Call>, t: real, now: real)
    requires TokenBuckets.Chronological(calls + [Call(t, 1)]) && t <= now && forall c :: c in calls ==> c.at <= t
    ensures TokenBuckets.Chronological(calls + [Call(now, 1)])
    ensures TokenBuckets.Chronological(calls + [Call(t, 1)] + [Call(now, 1)])
  {
    var run := calls + [Call(t, 1)];
    assert forall i :: 0 <= i < |calls| ==> run[i] == calls[i] && calls[i] in calls;
  }

  lemma RunPrefixInOrder(events: seq<Event>)
    requires events != [] && Chronological(events)
    ensures Chronological(Init(events)) && forall e :: e in Init(events) ==> e.at <= Last(events).at
  {
    assert forall i :: 0 <= i < |events| - 1 ==> events[i].at <= events[|events| - 1].at;
  }

  lemma {:induction false} BucketCallsInOrder(cfg: Config, events: seq<Event>, provider: string, now: real)
    requires Chronological(events) && forall e :: e in events ==> e.at <= now
    ensures TokenBuckets.Chronological(BucketCalls(cfg, events, provider) + [Call(now, 1)])
    ensures forall c :: c in BucketCalls(cfg, events, provider) ==> c.at <= now
  {
    if events != [] {
      var before, e := BucketCalls(cfg, Init(events), provider), Last(events);
      assert e in events;
      assert BucketCalls(cfg, events, provider) == before
             || BucketCalls(cfg, events, provider) == before + [Call(e.at, 1)];
      RunPrefixInOrder(events);
      hide BucketCalls, PB.Allows, ProviderAfter, Chronological, TokenBuckets.Chronological;
      BucketCallsInOrder(cfg, Init(events), provider, e.at);
      OneMoreCall(before, e.at, now);
    }
  }

  /**
   * The rate rule over whole runs: an attempt that gets past the breaker is skipped by the bucket exactly
   * when, counted from some earlier call that reached the bucket or from itself, the calls the bucket
   * started and this one would exceed the burst plus the rate times the time since.
   */
  lemma RateSkipsExactly(cfg: Config, events: seq<Event>, provider: string, now: real)
    requires Chronological(events) && forall e :: e in events ==> e.at <= now
    ensures var found := ProviderAfter(cfg, UNUSED, events, provider);
            var calls, n := BucketCalls(cfg, events, provider) + [Call(now, 1)], |BucketCalls(cfg, events, provider)|;
            var p := Params(cfg.quota.burst, cfg.quota.ratePerMinute as real / 60.0);
            GateOf(cfg, found, now).RateSkipped? <==>
            PB.Allows(cfg.breaker, found.breaker, now) && cfg.quota.ratePerMinute > 0
            && exists i: nat :: i <= n && Overspends(calls, p, i, n)
  {
    var found := ProviderAfter(cfg, UNUSED, events, provider);
    var before := BucketCalls(cfg, events, provider);
    var calls, n := before + [Call(now, 1)], |before|;
    var p := Params(cfg.quota.burst, cfg.quota.ratePerMinute as real / 60.0);
    if cfg.quota.ratePerMinute > 0 {
      BucketIsDrain(cfg, events, provider);
      BucketCallsInOrder(cfg, events, provider, now);
      DeniedIffSomeWindowOverspends(calls, p, n);
      assert calls[..n] == before;
      assert Admitted(calls, p, n) <==> Permits(cfg.quota, found.bucket, now);
    }
    hide Overspends, Drain, Level, PB.Allows, ProviderAfter, BucketCalls;
  }
}
