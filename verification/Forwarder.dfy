/**
 * The gateway's retry loop (gateway/routing/forwarder.py) around one upstream and its breaker.
 *
 * What the upstream does on attempt k, and the clock when the k-th report reaches the breaker, are
 * arbitrary functions.
 */
module Forwarding {
  import opened Basics
  import opened CircuitBreakers

  /** What one HTTP request comes to; `Escaped` is a cancellation or an exception that is not httpx's. */
  datatype Outcome =
    | Response(status: int)
    | TimedOut
    | TransportError
    | Escaped

  /** What the caller of `forward` sees. */
  datatype Result =
    | Returned(status: int)
    | UpstreamTimeout
    | BadGateway
    | RetriesExhausted
    | CircuitOpen
    | Propagated

  /** A failure signal for the breaker: a 5xx response or no response at all. */
  predicate Bad(o: Outcome) {
    o.TimedOut? || o.TransportError? || (o.Response? && o.status >= 500)
  }

  function ResultOf(o: Outcome): Result {
    match o
    case Response(status) => Returned(status)
    case TimedOut => UpstreamTimeout
    case TransportError => BadGateway
    case Escaped => Propagated
  }

  /** The breaker after the reports of the first n attempts; what escapes both handlers is not reported. */
  function AfterReports(cfg: Config, s: State, upstream: nat -> Outcome, clock: nat -> real, n: nat): State {
    if n == 0 then s
    else
      var before := AfterReports(cfg, s, upstream, clock, n - 1);
      if Bad(upstream(n - 1)) then AfterFailure(cfg, before, clock(n - 1))
      else if upstream(n - 1).Escaped? then before
      else AfterSuccess(cfg, before)
  }

  /** The attempts before the k-th were all worth a retry: a 5xx response or an httpx failure. */
  ghost predicate Retried(upstream: nat -> Outcome, k: nat) {
    forall i: nat :: i < k ==>
      upstream(i).TimedOut? || upstream(i).TransportError? || (upstream(i).Response? && upstream(i).status >= 500)
  }

  /** What `forward` makes of the upstream's outcomes, and how many requests it takes. */
  ghost predicate Forwarded(upstream: nat -> Outcome, maxRetries: int, result: Result, made: nat) {
    && (maxRetries < 0 ==> made == 0 && result == RetriesExhausted)
    && (forall k: nat :: k <= maxRetries && Retried(upstream, k) ==>
          && made > k
          && (upstream(k).Response? && upstream(k).status < 500 ==>
                made == k + 1 && result == Returned(upstream(k).status))
          && (upstream(k).Escaped? ==> made == k + 1 && result == Propagated))
    && (maxRetries >= 0 && Retried(upstream, maxRetries + 1) ==>
          && made == maxRetries + 1
          && result == match upstream(maxRetries)
                       case Response(status) => Returned(status)
                       case TimedOut => UpstreamTimeout
                       case TransportError => BadGateway
                       case Escaped => Propagated)
  }

  /**
   * A run of `forward` against a breaker nobody else uses. `made` counts the requests sent. The first
   * attempt that is neither 5xx nor an httpx failure decides, without any further request; if there is
   * none within the retries, the last one does. Every attempt that ends in a response or an httpx error is
   * reported to the breaker exactly once and in order, and together they trip it at most once; and the
   * defensive error after the loop is reached only when there was no attempt to make. If the first answer
   * is below 500, a CLOSED breaker stays CLOSED with nothing held against the upstream.
   */
  method Forward(breaker: CircuitBreaker, maxRetries: int, upstream: nat -> Outcome, clock: nat -> real, now: real)
    returns (result: Result, made: nat)
    requires breaker.Valid()
    modifies breaker
    ensures breaker.Valid()
    ensures !Allows(breaker.cfg, old(breaker.Current()), now) ==>
              result == CircuitOpen && made == 0
    ensures Allows(breaker.cfg, old(breaker.Current()), now) ==>
              && made <= MaxInt(0, maxRetries + 1)
              && (result == RetriesExhausted <==> maxRetries < 0)
              && Forwarded(upstream, maxRetries, result, made)
    ensures breaker.Current() ==
              AfterReports(breaker.cfg, AfterAllow(breaker.cfg, old(breaker.Current()), now), upstream, clock, made)
    ensures Allows(breaker.cfg, old(breaker.Current()), now) ==>
              TripCount(breaker.cfg, AfterAllow(breaker.cfg, old(breaker.Current()), now), upstream, clock, made) <= 1
    ensures old(breaker.Current()).phase.Closed? && maxRetries >= 0
            && upstream(0).Response? && upstream(0).status < 500 ==>
              breaker.Current() == old(breaker.Current()).(failureCount := 0)
  {
    AdmittedIsNotOpen(breaker.cfg, breaker.Current(), now);
    if breaker.phase.Closed? { GoodAnswerClears(breaker.cfg, breaker.Current(), upstream, clock, now); }
    assert maxRetries >= 0 ==> Retried(upstream, 0);
    hide AfterSuccess, AfterFailure, AfterAllow, Allows, Consistent, TripCount, ResultOf, Bad, Forwarded;
    var allowed := breaker.Allow(now);
    if !allowed {
      return CircuitOpen, 0;
    }
    ghost var start := breaker.Current();
    result, made := Attempts(breaker, maxRetries + 1, upstream, clock);
    OneRequestTripsAtMostOnce(breaker.cfg, start, upstream, clock, made);
    AttemptsForward(upstream, maxRetries, result, made);
  }

  /** The loop of `forward`. */
  method Attempts(breaker: CircuitBreaker, attempts: int, upstream: nat -> Outcome, clock: nat -> real)
    returns (result: Result, made: nat)
    requires breaker.Valid()
    modifies breaker
    ensures breaker.Valid()
    ensures made <= MaxInt(0, attempts) && (made == 0 <==> attempts <= 0)
    ensures result == if made == 0 then RetriesExhausted else ResultOf(upstream(made - 1))
    ensures forall k: nat :: k + 1 < made ==> Bad(upstream(k))
    ensures made > 0 && Bad(upstream(made - 1)) ==> made == attempts
    ensures breaker.Current() == AfterReports(breaker.cfg, old(breaker.Current()), upstream, clock, made)
  {
    hide AfterSuccess, AfterFailure, Consistent;
    made := 0;
    var attempt := 0;
    while attempt < attempts
      invariant breaker.Valid() && attempt == made <= MaxInt(0, attempts)
      invariant forall k: nat :: k < made ==> Bad(upstream(k))
      invariant made == attempts ==> made == 0
      invariant breaker.Current() == AfterReports(breaker.cfg, old(breaker.Current()), upstream, clock, made)
    {
      var outcome := upstream(attempt);
      made := made + 1;
      match outcome {
        case Response(status) =>
          if status >= 500 {
            breaker.RecordFailure(clock(attempt));
            if attempt < attempts - 1 {
              attempt := attempt + 1;
              continue;
            }
          } else {
            breaker.RecordSuccess();
          }
          return Returned(status), made;
        case TimedOut =>
          breaker.RecordFailure(clock(attempt));
          if attempt >= attempts - 1 {
            return UpstreamTimeout, made;
          }
        case TransportError =>
          breaker.RecordFailure(clock(attempt));
          if attempt >= attempts - 1 {
            return BadGateway, made;
          }
        case Escaped =>
          return Propagated, made;
      }
      attempt := attempt + 1;
    }
    return RetriesExhausted, made;
  }

  lemma BadMeansRetried(upstream: nat -> Outcome, k: nat)
    ensures Retried(upstream, k) <==> forall i: nat :: i < k ==> Bad(upstream(i))
  {
  }

  lemma AttemptsForward(upstream: nat -> Outcome, maxRetries: int, result: Result, made: nat)
    requires made <= MaxInt(0, maxRetries + 1) && (made == 0 <==> maxRetries < 0)
    requires result == if made == 0 then RetriesExhausted else ResultOf(upstream(made - 1))
    requires forall k: nat :: k + 1 < made ==> Bad(upstream(k))
    requires made > 0 && Bad(upstream(made - 1)) ==> made == maxRetries + 1
    ensures Forwarded(upstream, maxRetries, result, made)
    ensures result == RetriesExhausted <==> maxRetries < 0
  {
    forall k: nat | k <= maxRetries && Retried(upstream, k)
      ensures made > k
      ensures !Bad(upstream(k)) ==> made == k + 1
    {
      BadMeansRetried(upstream, k);
      var lastBad, thisBad := Bad(upstream(made - 1)), Bad(upstream(k));
    }
    if maxRetries >= 0 { BadMeansRetried(upstream, maxRetries + 1); }
  }

  lemma GoodAnswerClears(cfg: Config, s: State, upstream: nat -> Outcome, clock: nat -> real, now: real)
    requires s.phase.Closed?
    ensures Allows(cfg, s, now) && AfterAllow(cfg, s, now) == s
    ensures upstream(0).Response? && upstream(0).status < 500 ==>
              AfterReports(cfg, s, upstream, clock, 1) == s.(failureCount := 0)
  {
  }

  /** How many of the first n reports opened the breaker. */
  function TripCount(cfg: Config, s: State, upstream: nat -> Outcome, clock: nat -> real, n: nat): nat {
    if n == 0 then 0
    else
      TripCount(cfg, s, upstream, clock, n - 1) +
      (if !AfterReports(cfg, s, upstream, clock, n - 1).phase.Open? &&
          AfterReports(cfg, s, upstream, clock, n).phase.Open? then 1 else 0)
  }

  lemma AdmittedIsNotOpen(cfg: Config, s: State, now: real)
    ensures Allows(cfg, s, now) ==> !AfterAllow(cfg, s, now).phase.Open?
  {
  }

  /**
   * A probe that never reports, because no attempt was to be made or because something escaped, leaves
   * the breaker it half-opened refusing every later call for good exactly when the quota is one probe.
   */
  lemma UnreportedProbeWedges(cfg: Config, s: State, now: real)
    requires s.phase.Open? && Recovered(s, now)
    ensures var next := AfterAllow(cfg, s, now);
            && next.phase.HalfOpen?
            && ((forall later :: !Allows(cfg, next, later) && AfterAllow(cfg, next, later) == next) <==>
                  cfg.halfOpenMax <= 1)
  {
    var next := AfterAllow(cfg, s, now);
    assert Allows(cfg, next, now) <==> cfg.halfOpenMax > 1;
  }

  /**
   * Run alone, one request trips the breaker at most once, however often it retries, and a breaker it
   * tripped stays OPEN to its end, even if the last attempt succeeds.
   */
  lemma {:induction false} OneRequestTripsAtMostOnce(
      cfg: Config, s: State, upstream: nat -> Outcome, clock: nat -> real, n: nat)
    requires !s.phase.Open?
    requires forall k: nat :: k + 1 < n ==> Bad(upstream(k))
    ensures TripCount(cfg, s, upstream, clock, n) <= 1
    ensures TripCount(cfg, s, upstream, clock, n) == 1 <==> AfterReports(cfg, s, upstream, clock, n).phase.Open?
  {
    if n > 0 { OneRequestTripsAtMostOnce(cfg, s, upstream, clock, n - 1); }
  }

  /**
   * A request that was let in as a probe settles the episode it found: the first report of a bad
   * attempt re-opens the breaker. From CLOSED it takes `failureThreshold` bad attempts in a row.
   */
  lemma {:induction false} BadAttemptsAddUp(
      cfg: Config, s: State, upstream: nat -> Outcome, clock: nat -> real, n: nat)
    requires !s.phase.Open? && n > 0
    requires forall k: nat :: k < n ==> Bad(upstream(k))
    ensures AfterReports(cfg, s, upstream, clock, n).phase.Open? <==>
            s.phase.HalfOpen? || s.failureCount + n >= cfg.failureThreshold
    ensures AfterReports(cfg, s, upstream, clock, n).failureCount == s.failureCount + n
    ensures !AfterReports(cfg, s, upstream, clock, n).phase.HalfOpen?
  {
    if n > 1 { BadAttemptsAddUp(cfg, s, upstream, clock, n - 1); }
    else { assert AfterReports(cfg, s, upstream, clock, 0) == s; }
  }
}
