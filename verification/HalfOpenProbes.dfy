/**
 * The gateway breaker with the calls it let through still in flight. Calls interleave freely; a call
 * that failed and is being retried reports a failure and stays in flight; a call that is cancelled,
 * makes no attempt, or dies of an exception that nobody reports is abandoned.
 */
module HalfOpenProbes {
  import opened Basics
  import opened CircuitBreakers

  /**
   * `inFlight` maps each unreported call to the half-open episode it probes, or to None when it was
   * admitted while CLOSED. Episodes are numbered as they begin. `succeeded` and `abandoned` count what
   * became of the current episode's own probes during it, `failed` the failures anyone reported.
   */
  datatype System = System(
    breaker: State,
    inFlight: map<nat, Option<nat>>,
    nextCall: nat,
    episode: nat,
    succeeded: nat,
    abandoned: nat,
    failed: nat)

  datatype Action =
    | Admit(at: real)
    | ReportSuccess(call: nat)
    | ReportFailure(call: nat, at: real, retrying: bool)
    | Abandon(call: nat)
    | ResetBreaker

  function Start(cfg: Config): System {
    System(Initial(cfg), map[], 0, 0, 0, 0, 0)
  }

  predicate Enabled(sys: System, a: Action) {
    match a
    case Admit(_) | ResetBreaker => true
    case ReportSuccess(call) => call in sys.inFlight
    case ReportFailure(call, _, _) => call in sys.inFlight
    case Abandon(call) => call in sys.inFlight
  }

  /** Whether the call is a probe of the episode under way. */
  predicate OwnProbe(sys: System, call: nat) {
    sys.breaker.phase.HalfOpen? && call in sys.inFlight && sys.inFlight[call] == Some(sys.episode)
  }

  function Apply(cfg: Config, sys: System, a: Action): System
    requires Enabled(sys, a)
  {
    match a
    case Admit(at) =>
      var next := AfterAllow(cfg, sys.breaker, at);
      if !Allows(cfg, sys.breaker, at) then sys.(breaker := next)
      else if sys.breaker.phase.Closed? then
        sys.(breaker := next, inFlight := sys.inFlight[sys.nextCall := None], nextCall := sys.nextCall + 1)
      else
        var begins := sys.breaker.phase.Open?;
        var episode := if begins then sys.episode + 1 else sys.episode;
        System(next, sys.inFlight[sys.nextCall := Some(episode)], sys.nextCall + 1, episode,
               if begins then 0 else sys.succeeded, if begins then 0 else sys.abandoned,
               if begins then 0 else sys.failed)
    case ReportSuccess(call) =>
      sys.(breaker := AfterSuccess(cfg, sys.breaker), inFlight := sys.inFlight - {call},
           succeeded := sys.succeeded + if OwnProbe(sys, call) then 1 else 0)
    case ReportFailure(call, at, retrying) =>
      sys.(breaker := AfterFailure(cfg, sys.breaker, at),
           inFlight := if retrying then sys.inFlight else sys.inFlight - {call},
           failed := sys.failed + if sys.breaker.phase.HalfOpen? then 1 else 0)
    case Abandon(call) =>
      sys.(inFlight := sys.inFlight - {call}, abandoned := sys.abandoned + if OwnProbe(sys, call) then 1 else 0)
    case ResetBreaker => sys.(breaker := AfterReset(cfg, sys.breaker))
  }

  /** The system after a run of actions, if every action of the run was enabled. */
  function RunFrom(cfg: Config, start: System, actions: seq<Action>): Option<System> {
    if actions == [] then Some(start)
    else
      match RunFrom(cfg, start, Init(actions))
      case None => None
      case Some(sys) => if Enabled(sys, Last(actions)) then Some(Apply(cfg, sys, Last(actions))) else None
  }

  function Run(cfg: Config, actions: seq<Action>): Option<System> {
    RunFrom(cfg, Start(cfg), actions)
  }

  /** Probes of the current episode that have not reported yet. */
  function Pending(sys: System): set<nat> {
    set call | call in sys.inFlight && sys.inFlight[call] == Some(sys.episode)
  }

  predicate QuotaSpent(cfg: Config, sys: System) {
    sys.breaker.phase.HalfOpen? && sys.breaker.halfOpenCalls >= cfg.halfOpenMax
  }

  ghost predicate Invariant(cfg: Config, sys: System) {
    && Consistent(cfg, sys.breaker)
    && (forall call :: call in sys.inFlight ==> call < sys.nextCall)
    && (forall call :: call in sys.inFlight && sys.inFlight[call].Some? ==> sys.inFlight[call].value <= sys.episode)
    && (sys.breaker.phase.HalfOpen? ==>
          && sys.failed == 0
          && |Pending(sys)| + sys.abandoned + sys.succeeded == sys.breaker.halfOpenCalls)
    && (QuotaSpent(cfg, sys) ==> sys.succeeded < sys.breaker.halfOpenCalls)
  }

  lemma PendingAfterAdmit(cfg: Config, sys: System, at: real)
    requires Invariant(cfg, sys) && Allows(cfg, sys.breaker, at) && !sys.breaker.phase.Closed?
    ensures var next := Apply(cfg, sys, Admit(at));
            Pending(next) == (if sys.breaker.phase.Open? then {} else Pending(sys)) + {sys.nextCall}
  {
  }

  lemma PendingAfterReport(cfg: Config, sys: System, call: nat)
    requires call in sys.inFlight
    ensures Pending(Apply(cfg, sys, ReportSuccess(call))) == Pending(sys) - {call}
    ensures Pending(Apply(cfg, sys, Abandon(call))) == Pending(sys) - {call}
    ensures call in Pending(sys) <==> sys.inFlight[call] == Some(sys.episode)
  {
  }

  lemma AdmitKeepsInvariant(cfg: Config, sys: System, at: real)
    requires Invariant(cfg, sys)
    ensures Invariant(cfg, Apply(cfg, sys, Admit(at)))
  {
    if Allows(cfg, sys.breaker, at) && !sys.breaker.phase.Closed? {
      PendingAfterAdmit(cfg, sys, at);
    }
  }

  lemma SuccessKeepsInvariant(cfg: Config, sys: System, call: nat)
    requires Invariant(cfg, sys) && call in sys.inFlight
    ensures Invariant(cfg, Apply(cfg, sys, ReportSuccess(call)))
  {
    PendingAfterReport(cfg, sys, call);
  }

  lemma AbandonKeepsInvariant(cfg: Config, sys: System, call: nat)
    requires Invariant(cfg, sys) && call in sys.inFlight
    ensures Invariant(cfg, Apply(cfg, sys, Abandon(call)))
  {
    PendingAfterReport(cfg, sys, call);
  }

  lemma FailureOrResetKeepsInvariant(cfg: Config, sys: System, a: Action)
    requires Invariant(cfg, sys) && Enabled(sys, a) && (a.ReportFailure? || a.ResetBreaker?)
    ensures Invariant(cfg, Apply(cfg, sys, a))
  {
  }

  lemma InvariantIsKept(cfg: Config, sys: System, a: Action)
    requires Invariant(cfg, sys) && Enabled(sys, a)
    ensures Invariant(cfg, Apply(cfg, sys, a))
  {
    hide Invariant, Apply;
    match a
    case Admit(at) => AdmitKeepsInvariant(cfg, sys, at);
    case ReportSuccess(call) => SuccessKeepsInvariant(cfg, sys, call);
    case Abandon(call) => AbandonKeepsInvariant(cfg, sys, call);
    case ReportFailure(_, _, _) => FailureOrResetKeepsInvariant(cfg, sys, a);
    case ResetBreaker => FailureOrResetKeepsInvariant(cfg, sys, a);
  }

  lemma {:induction false} RunsKeepInvariant(cfg: Config, actions: seq<Action>)
    ensures Run(cfg, actions).Some? ==> Invariant(cfg, Run(cfg, actions).value)
  {
    if actions != [] {
      RunsKeepInvariant(cfg, Init(actions));
      var before := Run(cfg, Init(actions));
      if before.Some? && Enabled(before.value, Last(actions)) {
        InvariantIsKept(cfg, before.value, Last(actions));
      }
    }
  }

  /**
   * What becomes of the probes. In every reachable HALF_OPEN state the admitted probes are those pending,
   * those abandoned and those that succeeded, and none has failed. Once the quota is spent they have not
   * all succeeded, so a probe is pending exactly unless all that did not succeed were abandoned.
   */
  lemma SpentHalfOpenHasProbe(cfg: Config, actions: seq<Action>)
    requires Run(cfg, actions).Some? && Run(cfg, actions).value.breaker.phase.HalfOpen?
    ensures var sys := Run(cfg, actions).value;
            && sys.breaker.halfOpenCalls == |Pending(sys)| + sys.abandoned + sys.succeeded && sys.failed == 0
            && (QuotaSpent(cfg, sys) ==>
                  && (Pending(sys) == {} <==> sys.abandoned == sys.breaker.halfOpenCalls - sys.succeeded)
                  && (sys.abandoned == 0 ==> Pending(sys) != {}))
  {
    RunsKeepInvariant(cfg, actions);
  }

  /**
   * Before the quota is spent every call is let in. Afterwards every call is refused and an abandoned one
   * changes nothing, but any report of a call in flight, whichever way it goes, leaves HALF_OPEN.
   */
  lemma HalfOpenMovesOnReports(cfg: Config, actions: seq<Action>, call: nat, at: real)
    requires Run(cfg, actions).Some? && Run(cfg, actions).value.breaker.phase.HalfOpen?
    requires call in Run(cfg, actions).value.inFlight
    ensures var sys := Run(cfg, actions).value;
            if QuotaSpent(cfg, sys) then
              && Apply(cfg, sys, ReportSuccess(call)).breaker.phase.Closed?
              && Apply(cfg, sys, ReportFailure(call, at, false)).breaker.phase.Open?
              && Apply(cfg, sys, ReportFailure(call, at, true)).breaker.phase.Open?
              && Apply(cfg, sys, Admit(at)) == sys
              && Apply(cfg, sys, Abandon(call)).breaker == sys.breaker
            else Allows(cfg, sys.breaker, at)
  {
    RunsKeepInvariant(cfg, actions);
  }

  /** Whether some continuation without a reset gets the breaker out of HALF_OPEN. */
  ghost predicate CanLeave(cfg: Config, sys: System) {
    exists more: seq<Action> :: (forall a :: a in more ==> !a.ResetBreaker?)
      && RunFrom(cfg, sys, more).Some? && !RunFrom(cfg, sys, more).value.breaker.phase.HalfOpen?
  }

  lemma {:induction false} NobodyLeftNothingHappens(cfg: Config, sys: System, more: seq<Action>)
    requires QuotaSpent(cfg, sys) && sys.inFlight == map[]
    requires forall a :: a in more ==> !a.ResetBreaker?
    ensures RunFrom(cfg, sys, more).Some? ==> RunFrom(cfg, sys, more).value == sys
  {
    if more != [] {
      assert Last(more) in more && forall a :: a in Init(more) ==> a in more;
      NobodyLeftNothingHappens(cfg, sys, Init(more));
    }
  }

  /**
   * Exactly when HALF_OPEN wedges: once the quota is spent, the breaker can leave HALF_OPEN without a
   * reset if and only if some call, of this episode or an older one, is still in flight to report.
   */
  lemma HalfOpenWedgesExactly(cfg: Config, sys: System)
    requires QuotaSpent(cfg, sys)
    ensures CanLeave(cfg, sys) <==> sys.inFlight != map[]
  {
    if sys.inFlight == map[] {
      forall more: seq<Action> | forall a :: a in more ==> !a.ResetBreaker?
        ensures RunFrom(cfg, sys, more).Some? ==> RunFrom(cfg, sys, more).value == sys
      {
        NobodyLeftNothingHappens(cfg, sys, more);
      }
    } else {
      var call :| call in sys.inFlight;
      var more := [ReportSuccess(call)];
      assert Init(more) == [] && RunFrom(cfg, sys, more) == Some(Apply(cfg, sys, ReportSuccess(call)));
    }
  }

  /** And any spent HALF_OPEN can be wedged: it is enough that everyone in flight is abandoned. */
  lemma {:induction false} AbandoningAllWedges(cfg: Config, sys: System) returns (more: seq<Action>)
    requires QuotaSpent(cfg, sys)
    ensures forall a :: a in more ==> a.Abandon?
    ensures RunFrom(cfg, sys, more).Some? && !CanLeave(cfg, RunFrom(cfg, sys, more).value)
    decreases |sys.inFlight|
  {
    if sys.inFlight == map[] {
      more := [];
      HalfOpenWedgesExactly(cfg, sys);
    } else {
      hide CanLeave;
      var call :| call in sys.inFlight;
      var next := Apply(cfg, sys, Abandon(call));
      assert sys.inFlight.Keys == next.inFlight.Keys + {call};
      var rest := AbandoningAllWedges(cfg, next);
      more := [Abandon(call)] + rest;
      RunFromHead(cfg, sys, Abandon(call), rest);
    }
  }

  lemma {:induction false} RunFromHead(cfg: Config, sys: System, a: Action, rest: seq<Action>)
    requires Enabled(sys, a)
    ensures RunFrom(cfg, sys, [a] + rest) == RunFrom(cfg, Apply(cfg, sys, a), rest)
  {
    hide Apply, Enabled;
    if rest == [] {
      assert [a] + rest == [a] && Init([a]) == [];
    } else {
      RunFromHead(cfg, sys, a, Init(rest));
      assert Init([a] + rest) == [a] + Init(rest) && Last([a] + rest) == Last(rest);
    }
  }

  /**
   * Leaving HALF_OPEN for CLOSED, other than by a reset, takes a success report after the whole quota
   * was admitted and with no failure recorded during the episode. All the admitted probes have
   * succeeded by then if and only if none of them is still in flight and none was abandoned.
   */
  lemma ClosingTakesTheWholeQuota(cfg: Config, actions: seq<Action>, a: Action)
    requires Run(cfg, actions).Some? && Enabled(Run(cfg, actions).value, a) && !a.ResetBreaker?
    requires Run(cfg, actions).value.breaker.phase.HalfOpen?
    requires Apply(cfg, Run(cfg, actions).value, a).breaker.phase.Closed?
    ensures var sys, next := Run(cfg, actions).value, Apply(cfg, Run(cfg, actions).value, a);
            && a.ReportSuccess?
            && sys.breaker.halfOpenCalls == MaxInt(1, cfg.halfOpenMax)
            && sys.failed == next.failed == 0
            && sys.breaker.halfOpenCalls == |Pending(next)| + next.abandoned + next.succeeded
            && (next.succeeded == sys.breaker.halfOpenCalls <==> Pending(next) == {} && next.abandoned == 0)
  {
    RunsKeepInvariant(cfg, actions);
    var sys, next := Run(cfg, actions).value, Apply(cfg, Run(cfg, actions).value, a);
    PendingAfterReport(cfg, sys, a.call);
    assert |Pending(next)| + next.abandoned + next.succeeded == sys.breaker.halfOpenCalls;
  }

  /**
   * The whole quota being admitted does not mean that the whole quota succeeded: a single success
   * closes the breaker while the other probes of the episode are still in flight.
   */
  lemma OneSuccessCanClose(cfg: Config) returns (actions: seq<Action>)
    requires cfg == Config(1, 0, 3, 300)
    ensures Run(cfg, actions).Some? && var sys := Run(cfg, actions).value;
            sys.breaker.phase.Closed? && sys.episode == 1 && sys.succeeded == 1 && Pending(sys) == {2, 3}
  {
    var a1 := [Admit(0.0)];
    var a2 := a1 + [ReportFailure(0, 0.0, false)];
    var a3 := a2 + [Admit(0.0)];
    var a4 := a3 + [Admit(0.0)];
    var a5 := a4 + [Admit(0.0)];
    actions := a5 + [ReportSuccess(1)];
    assert Init(a1) == [] && Init(a2) == a1 && Init(a3) == a2 && Init(a4) == a3 && Init(a5) == a4;
    assert Init(actions) == a5;
    assert Run(cfg, a1) == Some(System(Initial(cfg), map[0 := None], 1, 0, 0, 0, 0));
    assert Run(cfg, a2).Some? && Run(cfg, a2).value.inFlight == map[];
    assert Run(cfg, a2) == Some(System(State(Open, 1, Some(0.0), 0, 0), map[], 1, 0, 0, 0, 0));
    assert Run(cfg, a3) == Some(System(State(HalfOpen, 1, None, 0, 1), map[1 := Some(1)], 2, 1, 0, 0, 0));
    assert Run(cfg, a4) == Some(System(State(HalfOpen, 1, None, 0, 2), map[1 := Some(1), 2 := Some(1)], 3, 1, 0, 0, 0));
    assert Run(cfg, a5) == Some(System(State(HalfOpen, 1, None, 0, 3),
                                       map[1 := Some(1), 2 := Some(1), 3 := Some(1)], 4, 1, 0, 0, 0));
    assert Run(cfg, actions).Some? && Run(cfg, actions).value.inFlight == map[2 := Some(1), 3 := Some(1)];
  }

  // ---------------------------------------------------------------- closing without any probe

  /** A call still in flight from CLOSED, being retried, can trip the breaker and stay in flight. */
  lemma {:induction false} RetriesTrip(cfg: Config, sys: System, call: nat) returns (more: seq<Action>)
    requires sys.breaker.phase.Closed? && call in sys.inFlight
    ensures RunFrom(cfg, sys, more).Some?
    ensures var next := RunFrom(cfg, sys, more).value;
            next.breaker.phase.Open? && next.breaker.openedAt == Some(0.0) && next.inFlight == sys.inFlight
            && next.nextCall == sys.nextCall && next.episode == sys.episode
    decreases cfg.failureThreshold - sys.breaker.failureCount
  {
    var a := ReportFailure(call, 0.0, true);
    var next := Apply(cfg, sys, a);
    if next.breaker.phase.Open? {
      more := [a];
      assert Init(more) == [] && RunFrom(cfg, sys, more) == Some(next);
    } else {
      var rest := RetriesTrip(cfg, next, call);
      more := [a] + rest;
      RunFromHead(cfg, sys, a, rest);
    }
  }

  /** Whatever is in flight, enough calls spend the quota. */
  lemma {:induction false} CallersSpend(cfg: Config, sys: System, call: nat) returns (more: seq<Action>)
    requires sys.breaker.phase.HalfOpen? && call in sys.inFlight && call < sys.nextCall
    ensures RunFrom(cfg, sys, more).Some?
    ensures var next := RunFrom(cfg, sys, more).value;
            QuotaSpent(cfg, next) && call in next.inFlight && next.inFlight[call] == sys.inFlight[call]
            && next.episode == sys.episode && next.succeeded == sys.succeeded && next.abandoned == sys.abandoned
    decreases cfg.halfOpenMax - sys.breaker.halfOpenCalls
  {
    if QuotaSpent(cfg, sys) {
      more := [];
    } else {
      var next := Apply(cfg, sys, Admit(0.0));
      var rest := CallersSpend(cfg, next, call);
      more := [Admit(0.0)] + rest;
      RunFromHead(cfg, sys, Admit(0.0), rest);
    }
  }

  lemma {:induction false} RunFromConcat(cfg: Config, sys: System, first: seq<Action>, second: seq<Action>)
    requires RunFrom(cfg, sys, first).Some?
    ensures RunFrom(cfg, sys, first + second) == RunFrom(cfg, RunFrom(cfg, sys, first).value, second)
  {
    hide Apply, Enabled;
    if second == [] {
      assert first + second == first;
    } else {
      RunFromConcat(cfg, sys, first, Init(second));
      assert Init(first + second) == first + Init(second) && Last(first + second) == Last(second);
    }
  }

  /** A call admitted while CLOSED sees the breaker trip, recover and spend its quota, and is still in flight. */
  lemma StaleCallSurvives(cfg: Config) returns (actions: seq<Action>)
    ensures Run(cfg, actions).Some? && var sys := Run(cfg, actions).value;
            QuotaSpent(cfg, sys) && 0 in sys.inFlight && sys.inFlight[0] == None && sys.episode == 1
            && sys.succeeded == 0 && sys.abandoned == 0
  {
    var start := Start(cfg);
    var admitted := Apply(cfg, start, Admit(0.0));
    var trip := RetriesTrip(cfg, admitted, 0);
    var tripped := RunFrom(cfg, admitted, trip).value;
    var recovery := Admit(Max(0.0, tripped.breaker.recovery as real));
    var recovered := Apply(cfg, tripped, recovery);
    var spend := CallersSpend(cfg, recovered, 0);
    actions := [Admit(0.0)] + (trip + ([recovery] + spend));
    RunFromHead(cfg, start, Admit(0.0), trip + ([recovery] + spend));
    RunFromConcat(cfg, admitted, trip, [recovery] + spend);
    RunFromHead(cfg, tripped, recovery, spend);
  }

  /**
   * No probe need succeed at all. Under every configuration some run closes the breaker from HALF_OPEN, its
   * whole quota of probes still pending, on the late success of a call that was admitted while CLOSED.
   */
  lemma StaleSuccessCanClose(cfg: Config) returns (actions: seq<Action>, last: Action)
    ensures Run(cfg, actions).Some? && Enabled(Run(cfg, actions).value, last) && last.ReportSuccess?
    ensures var sys, next := Run(cfg, actions).value, Apply(cfg, Run(cfg, actions).value, last);
            && sys.breaker.phase.HalfOpen? && next.breaker.phase.Closed?
            && next.succeeded == 0 && |Pending(next)| == MaxInt(1, cfg.halfOpenMax)
  {
    actions := StaleCallSurvives(cfg);
    last := ReportSuccess(0);
    RunsKeepInvariant(cfg, actions);
    PendingAfterReport(cfg, Run(cfg, actions).value, 0);
    hide Run;
  }
}
