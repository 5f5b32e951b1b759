/**
 * The gateway's circuit breaker (gateway/circuit_breaker/breaker.py): three phases, a probe quota
 * and a recovery time that doubles on every trip.
 */
module CircuitBreakers {
  import opened Basics

  datatype Phase = Closed | Open | HalfOpen

  datatype Config = Config(failureThreshold: int, baseRecovery: int, halfOpenMax: int, maxRecovery: int)

  datatype State = State(
    phase: Phase,
    failureCount: nat,
    openedAt: Option<real>,
    recovery: int,
    halfOpenCalls: nat)

  function Initial(cfg: Config): State {
    State(Closed, 0, None, cfg.baseRecovery, 0)
  }

  /** An OPEN breaker always knows since when; only HALF_OPEN counts probes. */
  ghost predicate Consistent(cfg: Config, s: State) {
    && (s.phase.Open? <==> s.openedAt.Some?)
    && (s.phase.HalfOpen? <==> s.halfOpenCalls > 0)
    && s.halfOpenCalls <= MaxInt(1, cfg.halfOpenMax)
  }

  /** Entering a phase anew forgets the probes, and the opening time unless the phase is OPEN. */
  function Transition(s: State, phase: Phase): State {
    if phase == s.phase then s
    else s.(phase := phase, halfOpenCalls := 0, openedAt := if phase.Open? then s.openedAt else None)
  }

  function Trip(cfg: Config, s: State, now: real): State {
    Transition(s, Open).(openedAt := Some(now), recovery := MinInt(cfg.maxRecovery, s.recovery * 2))
  }

  /** Whether an OPEN breaker has cooled down. */
  predicate Recovered(s: State, now: real) {
    s.openedAt.Some? && now - s.openedAt.value >= s.recovery as real
  }

  predicate Allows(cfg: Config, s: State, now: real) {
    match s.phase
    case Closed => true
    case Open => Recovered(s, now)
    case HalfOpen => s.halfOpenCalls < cfg.halfOpenMax
  }

  function AfterAllow(cfg: Config, s: State, now: real): State {
    match s.phase
    case Closed => s
    case Open => if Recovered(s, now) then Transition(s, HalfOpen).(halfOpenCalls := 1) else s
    case HalfOpen =>
      if s.halfOpenCalls < cfg.halfOpenMax then s.(halfOpenCalls := s.halfOpenCalls + 1) else s
  }

  function AfterSuccess(cfg: Config, s: State): State {
    match s.phase
    case Closed => s.(failureCount := 0)
    case Open => s
    case HalfOpen =>
      if s.halfOpenCalls >= cfg.halfOpenMax
      then Transition(s, Closed).(recovery := cfg.baseRecovery, failureCount := 0) else s
  }

  function AfterFailure(cfg: Config, s: State, now: real): State {
    var counted := s.(failureCount := s.failureCount + 1);
    if s.phase.HalfOpen? || (s.phase.Closed? && counted.failureCount >= cfg.failureThreshold)
    then Trip(cfg, counted, now) else counted
  }

  function AfterReset(cfg: Config, s: State): State {
    Transition(s, Closed).(failureCount := 0, recovery := cfg.baseRecovery)
  }

  class CircuitBreaker {
    const cfg: Config
    var phase: Phase
    var failureCount: nat
    var openedAt: Option<real>
    var recovery: int
    var halfOpenCalls: nat

    function Current(): State
      reads this
    {
      State(phase, failureCount, openedAt, recovery, halfOpenCalls)
    }

    ghost predicate Valid()
      reads this
    {
      Consistent(cfg, Current())
    }

    constructor (cfg: Config)
      ensures this.cfg == cfg && Valid() && Current() == Initial(cfg)
    {
      this.cfg := cfg;
      phase, failureCount, openedAt := Closed, 0, None;
      recovery, halfOpenCalls := cfg.baseRecovery, 0;
    }

    method Allow(now: real) returns (ok: bool)
      requires Valid()
      modifies this
      ensures Valid()
      ensures ok == Allows(cfg, old(Current()), now) && Current() == AfterAllow(cfg, old(Current()), now)
    {
      if phase.Closed? {
        return true;
      }
      if phase.Open? {
        if now - openedAt.value >= recovery as real {
          TransitionTo(HalfOpen);
          halfOpenCalls := 1;
          return true;
        }
        return false;
      }
      if halfOpenCalls < cfg.halfOpenMax {
        halfOpenCalls := halfOpenCalls + 1;
        return true;
      }
      return false;
    }

    method RecordSuccess()
      requires Valid()
      modifies this
      ensures Valid() && Current() == AfterSuccess(cfg, old(Current()))
    {
      if phase.HalfOpen? {
        if halfOpenCalls >= cfg.halfOpenMax {
          TransitionTo(Closed);
          recovery := cfg.baseRecovery;
          failureCount := 0;
        }
      } else if phase.Closed? {
        failureCount := 0;
      }
    }

    method RecordFailure(now: real)
      requires Valid()
      modifies this
      ensures Valid() && Current() == AfterFailure(cfg, old(Current()), now)
    {
      failureCount := failureCount + 1;
      if phase.HalfOpen? {
        TripAt(now);
        return;
      }
      if phase.Closed? && failureCount >= cfg.failureThreshold {
        TripAt(now);
      }
    }

    method Reset()
      requires Valid()
      modifies this
      ensures Valid() && Current() == AfterReset(cfg, old(Current()))
    {
      TransitionTo(Closed);
      failureCount := 0;
      recovery := cfg.baseRecovery;
    }

    method TripAt(now: real)
      modifies this
      ensures Current() == Trip(cfg, old(Current()), now)
    {
      TransitionTo(Open);
      openedAt := Some(now);
      recovery := MinInt(cfg.maxRecovery, recovery * 2);
    }

    method TransitionTo(next: Phase)
      modifies this
      ensures Current() == Transition(old(Current()), next)
    {
      if next == phase { return; }
      phase := next;
      halfOpenCalls := 0;
      if !next.Open? {
        openedAt := None;
      }
    }
  }

  // ---------------------------------------------------------------- runs of events

  datatype Event =
    | Ask(at: real)
    | Succeed(at: real)
    | Fail(at: real)
    | Reset(at: real)

  function Step(cfg: Config, s: State, e: Event): State {
    match e
    case Ask(at) => AfterAllow(cfg, s, at)
    case Succeed(_) => AfterSuccess(cfg, s)
    case Fail(at) => AfterFailure(cfg, s, at)
    case Reset(_) => AfterReset(cfg, s)
  }

  function StateAfter(cfg: Config, events: seq<Event>): State {
    if events == [] then Initial(cfg) else Step(cfg, StateAfter(cfg, Init(events)), Last(events))
  }

  /** Whether the last event of the run is a call that was let through. */
  predicate LastAdmits(cfg: Config, events: seq<Event>)
    requires events != []
  {
    Last(events).Ask? && Allows(cfg, StateAfter(cfg, Init(events)), Last(events).at)
  }

  /** Whether the last event of the run opened the breaker. */
  predicate LastTrips(cfg: Config, events: seq<Event>)
    requires events != []
  {
    !StateAfter(cfg, Init(events)).phase.Open? && StateAfter(cfg, events).phase.Open?
  }

  /** The instants of all trips of a run. */
  function Trips(cfg: Config, events: seq<Event>): seq<real> {
    if events == [] then []
    else Trips(cfg, Init(events)) + (if LastTrips(cfg, events) then [Last(events).at] else [])
  }

  /** Calls admitted after the k-th trip (counted from 0) and before the next one. */
  function AdmittedDuring(cfg: Config, events: seq<Event>, k: nat): nat {
    if events == [] then 0
    else AdmittedDuring(cfg, Init(events), k) +
         (if LastAdmits(cfg, events) && |Trips(cfg, Init(events))| == k + 1 then 1 else 0)
  }

  /** Calls admitted after the first trip. */
  function AdmittedSinceTrip(cfg: Config, events: seq<Event>): nat {
    if events == [] then 0
    else AdmittedSinceTrip(cfg, Init(events)) +
         (if LastAdmits(cfg, events) && Trips(cfg, Init(events)) != [] then 1 else 0)
  }

  ghost predicate Chronological(events: seq<Event>) {
    forall i, j :: 0 <= i <= j < |events| ==> events[i].at <= events[j].at
  }

  /** The upstream is dead: once the breaker has tripped, nothing succeeds and nobody resets it. */
  predicate Dead(cfg: Config, events: seq<Event>) {
    events == [] ||
    (Dead(cfg, Init(events)) &&
     ((Last(events).Succeed? || Last(events).Reset?) ==> Trips(cfg, Init(events)) == []))
  }

  lemma {:induction false} AlwaysConsistent(cfg: Config, events: seq<Event>)
    ensures Consistent(cfg, StateAfter(cfg, events))
  {
    if events != [] { AlwaysConsistent(cfg, Init(events)); }
  }

  function Pow2(k: nat): (n: nat)
    ensures n >= 1
  {
    if k == 0 then 1 else 2 * Pow2(k - 1)
  }

  /** The recovery time in force after k trips. */
  function Backoff(cfg: Config, k: nat): int {
    MinInt(cfg.maxRecovery, cfg.baseRecovery * Pow2(k))
  }

  /** Backoff(1) + ... + Backoff(k): the least time k further trips take. */
  function BackoffSum(cfg: Config, k: nat): int {
    if k == 0 then 0 else BackoffSum(cfg, k - 1) + Backoff(cfg, k)
  }

  /** The probes k half-open episodes can admit. */
  function ProbeTotal(cfg: Config, k: nat): nat {
    if k == 0 then 0 else ProbeTotal(cfg, k - 1) + MaxInt(1, cfg.halfOpenMax)
  }

  lemma {:induction false} ProbeTotalIsProduct(cfg: Config, k: nat)
    ensures ProbeTotal(cfg, k) == k * MaxInt(1, cfg.halfOpenMax)
  {
    if k > 0 { ProbeTotalIsProduct(cfg, k - 1); }
  }

  lemma BackoffDoubles(cfg: Config, k: nat)
    requires cfg.maxRecovery >= 0
    ensures k == 0 ==> MinInt(cfg.maxRecovery, 2 * cfg.baseRecovery) == Backoff(cfg, 1)
    ensures MinInt(cfg.maxRecovery, Backoff(cfg, k) * 2) == Backoff(cfg, k + 1)
  {
    assert Pow2(1) == 2 * Pow2(0);
    assert cfg.baseRecovery * Pow2(k + 1) == 2 * (cfg.baseRecovery * Pow2(k));
  }

  /** Where a dead upstream leaves the breaker after every event. */
  ghost predicate DeadPhase(cfg: Config, events: seq<Event>) {
    var s, trips := StateAfter(cfg, events), Trips(cfg, events);
    && Consistent(cfg, s)
    && (trips == [] ==> s.phase.Closed? && s.recovery == cfg.baseRecovery)
    && (trips != [] ==>
          && events != [] && Last(trips) <= Last(events).at
          && !s.phase.Closed?
          && s.recovery == Backoff(cfg, |trips|)
          && (s.phase.Open? ==> s.openedAt == Some(Last(trips)))
          && (s.phase.HalfOpen? ==> Last(events).at - Last(trips) >= s.recovery as real))
  }

  lemma {:induction false} DeadPhaseHolds(cfg: Config, events: seq<Event>)
    requires Chronological(events) && Dead(cfg, events) && cfg.maxRecovery >= 0
    ensures DeadPhase(cfg, events)
  {
    if events != [] {
      var before := Init(events);
      DeadPhaseHolds(cfg, before);
      if before != [] { assert Last(before) == events[|events| - 2]; }
      BackoffDoubles(cfg, |Trips(cfg, before)|);
      hide Backoff;
    }
  }

  lemma {:induction false} GapsAreBackoffs(cfg: Config, events: seq<Event>, k: nat)
    requires Chronological(events) && Dead(cfg, events) && cfg.maxRecovery >= 0
    requires 0 < k < |Trips(cfg, events)|
    ensures Trips(cfg, events)[k] - Trips(cfg, events)[k - 1] >= Backoff(cfg, k) as real
  {
    hide Backoff;
    var before := Init(events);
    if k < |Trips(cfg, before)| {
      GapsAreBackoffs(cfg, before, k);
    } else {
      DeadPhaseHolds(cfg, before);
      assert Last(before) == events[|events| - 2];
    }
  }

  lemma {:induction false} EpisodesKeepQuota(cfg: Config, events: seq<Event>, k: nat)
    requires Chronological(events) && Dead(cfg, events) && cfg.maxRecovery >= 0
    ensures AdmittedDuring(cfg, events, k) <= MaxInt(1, cfg.halfOpenMax)
    ensures k >= |Trips(cfg, events)| ==> AdmittedDuring(cfg, events, k) == 0
    ensures k + 1 == |Trips(cfg, events)| ==>
              AdmittedDuring(cfg, events, k) == StateAfter(cfg, events).halfOpenCalls
  {
    if events != [] {
      EpisodesKeepQuota(cfg, Init(events), k);
      DeadPhaseHolds(cfg, Init(events));
      AlwaysConsistent(cfg, events);
      hide Backoff;
    }
  }

  lemma {:induction false} AdmissionsBounded(cfg: Config, events: seq<Event>)
    requires Chronological(events) && Dead(cfg, events) && cfg.maxRecovery >= 0
    ensures var n := |Trips(cfg, events)|;
            if n == 0 then AdmittedSinceTrip(cfg, events) == 0
            else AdmittedSinceTrip(cfg, events) <= ProbeTotal(cfg, n - 1) + StateAfter(cfg, events).halfOpenCalls
  {
    if events != [] {
      AdmissionsBounded(cfg, Init(events));
      DeadPhaseHolds(cfg, Init(events));
      hide Backoff;
    }
  }

  lemma {:induction false} GapsAddUp(cfg: Config, trips: seq<real>, k: nat)
    requires k < |trips|
    requires forall j: nat :: 0 < j < |trips| ==> trips[j] - trips[j - 1] >= Backoff(cfg, j) as real
    ensures trips[k] - trips[0] >= BackoffSum(cfg, k) as real
  {
    if k > 0 { GapsAddUp(cfg, trips, k - 1); }
  }

  /**
   * A dead upstream is asked ever more rarely: consecutive trips are at least the doubled, capped
   * backoff apart, so the number of trips is bounded by the time that has passed.
   */
  lemma DeadUpstreamBacksOff(cfg: Config, events: seq<Event>)
    requires Chronological(events) && Dead(cfg, events) && cfg.maxRecovery >= 0
    requires Trips(cfg, events) != []
    ensures var trips := Trips(cfg, events);
            && (forall k: nat :: 0 < k < |trips| ==> trips[k] - trips[k - 1] >= Backoff(cfg, k) as real)
            && Last(events).at - trips[0] >= BackoffSum(cfg, |trips| - 1) as real
  {
    hide Backoff, BackoffSum;
    DeadPhaseHolds(cfg, events);
    var trips := Trips(cfg, events);
    forall k: nat | 0 < k < |trips|
      ensures trips[k] - trips[k - 1] >= Backoff(cfg, k) as real
    {
      GapsAreBackoffs(cfg, events, k);
    }
    GapsAddUp(cfg, trips, |trips| - 1);
  }

  /**
   * A dead upstream is asked little: after each trip no more than the probe quota is admitted (one
   * probe if the quota is not positive), and since the first trip no more than that for every trip.
   */
  lemma DeadUpstreamSeesFewCalls(cfg: Config, events: seq<Event>)
    requires Chronological(events) && Dead(cfg, events) && cfg.maxRecovery >= 0
    ensures forall k: nat :: AdmittedDuring(cfg, events, k) <= MaxInt(1, cfg.halfOpenMax)
    ensures AdmittedSinceTrip(cfg, events) <= |Trips(cfg, events)| * MaxInt(1, cfg.halfOpenMax)
  {
    hide AdmittedDuring, AdmittedSinceTrip, Trips;
    forall k: nat
      ensures AdmittedDuring(cfg, events, k) <= MaxInt(1, cfg.halfOpenMax)
    {
      EpisodesKeepQuota(cfg, events, k);
    }
    AdmissionsBounded(cfg, events);
    AlwaysConsistent(cfg, events);
    ProbeTotalIsProduct(cfg, |Trips(cfg, events)|);
  }

  lemma {:induction false} BackoffSumGrows(cfg: Config, k: nat, n: nat)
    requires cfg.baseRecovery >= 0 && cfg.maxRecovery >= 0 && k <= n
    ensures BackoffSum(cfg, k) <= BackoffSum(cfg, n)
  {
    if k < n {
      BackoffSumGrows(cfg, k, n - 1);
      assert cfg.baseRecovery * Pow2(n) >= 0;
    }
  }

  /**
   * Calls by a deadline. As long as the time since the first trip falls short of the first n backoffs
   * together, a dead upstream has been sent at most n quotas of probes.
   */
  lemma DeadUpstreamBudget(cfg: Config, events: seq<Event>, n: nat)
    requires Chronological(events) && Dead(cfg, events) && cfg.baseRecovery >= 0 && cfg.maxRecovery >= 0
    requires Trips(cfg, events) != [] && Last(events).at - Trips(cfg, events)[0] < BackoffSum(cfg, n) as real
    ensures AdmittedSinceTrip(cfg, events) <= n * MaxInt(1, cfg.halfOpenMax)
  {
    hide *;
    DeadUpstreamBacksOff(cfg, events);
    DeadUpstreamSeesFewCalls(cfg, events);
    var trips := |Trips(cfg, events)|;
    if n < trips {
      BackoffSumGrows(cfg, n, trips - 1);
      assert false;
    }
    ProbesGrow(cfg, trips, n);
  }

  lemma ProbesGrow(cfg: Config, m: nat, n: nat)
    requires m <= n
    ensures m * MaxInt(1, cfg.halfOpenMax) <= n * MaxInt(1, cfg.halfOpenMax)
  {
    assert (n - m) * MaxInt(1, cfg.halfOpenMax) >= 0;
  }

  // ---------------------------------------------------------------- what the breaker remembers

  /** The failures recorded since the last success while CLOSED, the last closing or the last reset. */
  function FailuresSince(cfg: Config, events: seq<Event>): nat {
    if events == [] then 0
    else
      match Last(events)
      case Fail(_) => FailuresSince(cfg, Init(events)) + 1
      case Reset(_) => 0
      case Ask(_) => FailuresSince(cfg, Init(events))
      case Succeed(_) =>
        if StateAfter(cfg, events).phase.Closed? then 0 else FailuresSince(cfg, Init(events))
  }

  /** The instants of the trips since the last closing or the last reset. */
  function TripsSince(cfg: Config, events: seq<Event>): seq<real> {
    if events == [] then []
    else if Last(events).Reset? then []
    else if LastTrips(cfg, events) then TripsSince(cfg, Init(events)) + [Last(events).at]
    else if StateAfter(cfg, Init(events)).phase.HalfOpen? && StateAfter(cfg, events).phase.Closed? then []
    else TripsSince(cfg, Init(events))
  }

  /** The calls admitted since the breaker last half-opened, its first probe included. */
  function ProbesSince(cfg: Config, events: seq<Event>): nat {
    if events == [] || !StateAfter(cfg, events).phase.HalfOpen? then 0
    else ProbesSince(cfg, Init(events)) + (if LastAdmits(cfg, events) then 1 else 0)
  }

  /** The recovery time after n trips in a row: doubled by each, and capped. */
  function Recovery(cfg: Config, n: nat): int {
    if n == 0 then cfg.baseRecovery else MinInt(cfg.maxRecovery, 2 * Recovery(cfg, n - 1))
  }

  lemma {:induction false} RecoveryIsBackoff(cfg: Config, n: nat)
    requires cfg.maxRecovery >= 0 && n > 0
    ensures Recovery(cfg, n) == Backoff(cfg, n)
  {
    BackoffDoubles(cfg, n - 1);
    if n > 1 { RecoveryIsBackoff(cfg, n - 1); }
    hide Backoff;
  }

  /**
   * Whatever the run, successes and resets included, the breaker's counters count the log: failures since
   * the last success, closing or reset; a recovery time doubled for every trip since the last closing or
   * reset; the instant of the last trip; and the probes of the episode under way.
   */
  lemma {:induction false} CountersCountTheLog(cfg: Config, events: seq<Event>)
    ensures var s := StateAfter(cfg, events);
            && s.failureCount == FailuresSince(cfg, events)
            && s.recovery == Recovery(cfg, |TripsSince(cfg, events)|)
            && (s.phase.Open? ==> TripsSince(cfg, events) != [] && s.openedAt == Some(Last(TripsSince(cfg, events))))
            && s.halfOpenCalls == ProbesSince(cfg, events)
  {
    if events != [] {
      CountersCountTheLog(cfg, Init(events));
      AlwaysConsistent(cfg, Init(events));
    }
  }

  /**
   * Exactly when the breaker moves, in the terms of the log. From CLOSED it trips on the
   * `failureThreshold`-th failure and stays CLOSED otherwise; from OPEN a call half-opens it once the
   * recovery time has passed since the trip; from HALF_OPEN any failure trips it and a success closes it
   * when the quota of probes is spent. A reset closes it from anywhere.
   */
  lemma PhaseMovesExactly(cfg: Config, events: seq<Event>, e: Event)
    ensures var before, after := StateAfter(cfg, events).phase, StateAfter(cfg, events + [e]).phase;
            var trips := TripsSince(cfg, events);
            match before
            case Closed =>
              after == if e.Fail? && FailuresSince(cfg, events) + 1 >= cfg.failureThreshold then Open else Closed
            case Open =>
              trips != [] &&
              after == if e.Reset? then Closed
                       else if e.Ask? && e.at - Last(trips) >= Recovery(cfg, |trips|) as real then HalfOpen
                       else Open
            case HalfOpen =>
              after == if e.Reset? || (e.Succeed? && ProbesSince(cfg, events) >= cfg.halfOpenMax) then Closed
                       else if e.Fail? then Open
                       else HalfOpen
  {
    assert Init(events + [e]) == events;
    CountersCountTheLog(cfg, events);
    AlwaysConsistent(cfg, events);
  }

  /** And exactly which calls are let in, in the same terms. */
  lemma CallsAdmittedExactly(cfg: Config, events: seq<Event>, at: real)
    ensures var s, trips := StateAfter(cfg, events), TripsSince(cfg, events);
            Allows(cfg, s, at) <==>
              || s.phase.Closed?
              || (s.phase.Open? && trips != [] && at - Last(trips) >= Recovery(cfg, |trips|) as real)
              || (s.phase.HalfOpen? && ProbesSince(cfg, events) < cfg.halfOpenMax)
  {
    CountersCountTheLog(cfg, events);
    AlwaysConsistent(cfg, events);
  }

  /** An upstream that only ever succeeds keeps the breaker CLOSED, with nothing held against it. */
  lemma {:induction false} GoodUpstreamStaysClosed(cfg: Config, events: seq<Event>)
    requires forall e :: e in events ==> !e.Fail?
    ensures StateAfter(cfg, events).phase.Closed?
    ensures FailuresSince(cfg, events) == 0 == StateAfter(cfg, events).failureCount
  {
    if events != [] {
      assert Last(events) in events && forall e :: e in Init(events) ==> e in events;
      GoodUpstreamStaysClosed(cfg, Init(events));
      assert events == Init(events) + [Last(events)];
      PhaseMovesExactly(cfg, Init(events), Last(events));
      CountersCountTheLog(cfg, events);
      hide StateAfter;
    }
  }
}
