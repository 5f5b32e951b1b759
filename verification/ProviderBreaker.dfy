/**
 * The LLM service's breaker, one per provider (llm/circuit_breaker.py). Unlike the gateway's it has no
 * probe quota and no backoff, and a late success closes it whatever its phase.
 */
module ProviderBreakers {
  import opened Basics

  datatype Phase = Closed | HalfOpen | Open

  datatype Config = Config(failureThreshold: int, recoverySeconds: real)

  datatype State = State(phase: Phase, failures: nat, openedAt: Option<real>)

  /** What the constructor insists on. */
  predicate Sound(cfg: Config) {
    cfg.failureThreshold >= 1 && cfg.recoverySeconds > 0.0
  }

  const INITIAL := State(Closed, 0, None)

  predicate Allows(cfg: Config, s: State, now: real) {
    s.phase.Open? ==> s.openedAt.Some? && now - s.openedAt.value >= cfg.recoverySeconds
  }

  function AfterAllow(cfg: Config, s: State, now: real): State {
    if s.phase.Open? && Allows(cfg, s, now) then s.(phase := HalfOpen) else s
  }

  function AfterSuccess(s: State): State {
    s.(failures := 0, phase := Closed)
  }

  function AfterFailure(cfg: Config, s: State, now: real): State {
    if s.phase.HalfOpen? || s.failures + 1 >= cfg.failureThreshold
    then State(Open, s.failures + 1, Some(now))
    else s.(failures := s.failures + 1)
  }

  ghost predicate Consistent(s: State) {
    s.phase.Open? ==> s.openedAt.Some?
  }

  class ProviderCircuitBreaker {
    const cfg: Config
    var phase: Phase
    var failures: nat
    var openedAt: Option<real>

    function Current(): State
      reads this
    {
      State(phase, failures, openedAt)
    }

    constructor (cfg: Config)
      requires Sound(cfg)
      ensures this.cfg == cfg && Current() == INITIAL
    {
      this.cfg := cfg;
      phase, failures, openedAt := Closed, 0, None;
    }

    method Allow(now: real) returns (ok: bool)
      requires Consistent(Current())
      modifies this
      ensures ok == Allows(cfg, old(Current()), now) && Current() == AfterAllow(cfg, old(Current()), now)
    {
      if phase.Closed? {
        return true;
      }
      if phase.Open? {
        if now - openedAt.value >= cfg.recoverySeconds {
          phase := HalfOpen;
          return true;
        }
        return false;
      }
      return true;
    }

    method RecordSuccess()
      modifies this
      ensures Current() == AfterSuccess(old(Current()))
    {
      failures := 0;
      if !phase.Closed? {
        phase := Closed;
      }
    }

    method RecordFailure(now: real)
      modifies this
      ensures Current() == AfterFailure(cfg, old(Current()), now)
    {
      failures := failures + 1;
      if phase.HalfOpen? {
        phase := Open;
        openedAt := Some(now);
      } else if failures >= cfg.failureThreshold {
        phase := Open;
        openedAt := Some(now);
      }
    }

    method Reset()
      modifies this
      ensures Current() == INITIAL
    {
      failures := 0;
      openedAt := None;
      phase := Closed;
    }
  }

  class CircuitBreakerRegistry {
    const cfg: Config
    var breakers: map<string, ProviderCircuitBreaker>

    ghost predicate Valid()
      reads this, breakers.Values
    {
      && Sound(cfg)
      && (forall p :: p in breakers ==> breakers[p].cfg == cfg && Consistent(breakers[p].Current()))
      && (forall p, q :: p in breakers && q in breakers && p != q ==> breakers[p] != breakers[q])
    }

    ghost function StateFor(provider: string): State
      reads this, breakers.Values
    {
      if provider in breakers then breakers[provider].Current() else INITIAL
    }

    constructor (cfg: Config)
      requires Sound(cfg)
      ensures Valid() && this.cfg == cfg && breakers == map[]
    {
      this.cfg := cfg;
      breakers := map[];
    }

    method Get(provider: string) returns (breaker: ProviderCircuitBreaker)
      requires Valid()
      modifies this
      ensures Valid() && provider in breakers && breaker == breakers[provider]
      ensures provider in old(breakers) ==> breakers == old(breakers)
      ensures provider !in old(breakers) ==>
                fresh(breaker) && breakers == old(breakers)[provider := breaker] && breaker.Current() == INITIAL
    {
      if provider !in breakers {
        breaker := new ProviderCircuitBreaker(cfg);
        breakers := breakers[provider := breaker];
      }
      breaker := breakers[provider];
    }

    /** `get(provider).ensure_allowed()`; false stands for CircuitOpenError. */
    method EnsureAllowed(provider: string, now: real) returns (ok: bool)
      requires Valid()
      modifies this, breakers.Values
      ensures Valid() && fresh(breakers.Values - old(breakers.Values))
      ensures ok == Allows(cfg, old(StateFor(provider)), now)
      ensures StateFor(provider) == AfterAllow(cfg, old(StateFor(provider)), now)
      ensures forall q :: q != provider ==> StateFor(q) == old(StateFor(q))
    {
      var breaker := Get(provider);
      ok := breaker.Allow(now);
    }

    /** `get(provider).record_success()` or `.record_failure()` */
    method Record(provider: string, success: bool, now: real)
      requires Valid()
      modifies this, breakers.Values
      ensures Valid() && fresh(breakers.Values - old(breakers.Values))
      ensures StateFor(provider) ==
                if success then AfterSuccess(old(StateFor(provider)))
                else AfterFailure(cfg, old(StateFor(provider)), now)
      ensures forall q :: q != provider ==> StateFor(q) == old(StateFor(q))
    {
      var breaker := Get(provider);
      if success {
        breaker.RecordSuccess();
      } else {
        breaker.RecordFailure(now);
      }
    }

    method ResetAll()
      requires Valid()
      modifies breakers.Values
      ensures Valid() && breakers == old(breakers)
      ensures forall p :: StateFor(p) == INITIAL
    {
      var todo := breakers.Keys;
      while todo != {}
        invariant todo <= breakers.Keys && Valid()
        invariant forall p :: p in breakers && p !in todo ==> breakers[p].Current() == INITIAL
        decreases |todo|
      {
        var provider :| provider in todo;
        breakers[provider].Reset();
        todo := todo - {provider};
      }
    }
  }

  // ---------------------------------------------------------------- what the breaker remembers

  datatype Event =
    | Ask(at: real)
    | Succeed(at: real)
    | Fail(at: real)
    | Reset(at: real)

  function Step(cfg: Config, s: State, e: Event): State {
    match e
    case Ask(at) => AfterAllow(cfg, s, at)
    case Succeed(_) => AfterSuccess(s)
    case Fail(at) => AfterFailure(cfg, s, at)
    case Reset(_) => INITIAL
  }

  function StateAfter(cfg: Config, events: seq<Event>): State {
    if events == [] then INITIAL else Step(cfg, StateAfter(cfg, Init(events)), Last(events))
  }

  ghost predicate Chronological(events: seq<Event>) {
    forall i, j :: 0 <= i <= j < |events| ==> events[i].at <= events[j].at
  }

  /** The instants of the failures recorded since the last success or reset. */
  function FailuresSince(events: seq<Event>): seq<real> {
    if events == [] then []
    else
      match Last(events)
      case Fail(at) => FailuresSince(Init(events)) + [at]
      case Succeed(_) => []
      case Reset(_) => []
      case Ask(_) => FailuresSince(Init(events))
  }

  /** Whether a call came once the last of those failures was old enough. */
  predicate AskedLate(cfg: Config, events: seq<Event>) {
    && events != []
    && Last(events).Ask?
    && var fails := FailuresSince(Init(events));
       AskedLate(cfg, Init(events)) || (fails != [] && Last(events).at - Last(fails) >= cfg.recoverySeconds)
  }

  lemma {:induction false} BreakerMemory(cfg: Config, events: seq<Event>)
    requires Sound(cfg) && Chronological(events)
    ensures var s, fails := StateAfter(cfg, events), FailuresSince(events);
            && s.failures == |fails|
            && (s.phase.Closed? <==> |fails| < cfg.failureThreshold)
            && (!s.phase.Closed? ==> s.openedAt == Some(Last(fails)))
            && (s.phase.HalfOpen? <==> |fails| >= cfg.failureThreshold && AskedLate(cfg, events))
            && (s.phase.HalfOpen? ==> Last(events).at - Last(fails) >= cfg.recoverySeconds)
  {
    if events != [] {
      BreakerMemory(cfg, Init(events));
      if Init(events) != [] { assert Last(Init(events)) == events[|events| - 2]; }
    }
  }

  /**
   * For all its phases the breaker is one rule: a call is let through exactly when fewer than
   * `failureThreshold` failures have been recorded since the last success or reset, or the last of
   * them is at least `recoverySeconds` old.
   */
  lemma BreakerIsOneRule(cfg: Config, events: seq<Event>, now: real)
    requires Sound(cfg) && Chronological(events + [Ask(now)])
    ensures var fails := FailuresSince(events);
            Allows(cfg, StateAfter(cfg, events), now) <==>
            |fails| < cfg.failureThreshold || now - Last(fails) >= cfg.recoverySeconds
  {
    var run := events + [Ask(now)];
    assert forall i :: 0 <= i < |events| ==> run[i] == events[i];
    assert run[|events|].at == now;
    BreakerMemory(cfg, events);
  }
}
