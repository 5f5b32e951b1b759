/**
 * The chains of refresh tokens that logins start (gateway/auth/jwt_manager.py): when a login has one usable
 * token at a time, and when it has more.
 */
module RefreshChains {
  import opened Basics
  import opened RefreshTokens

  // ---------------------------------------------------------------- one chain per login

  /** Whether step k of the run is a refresh that is accepted. */
  predicate Refreshes(cfg: Config, ops: seq<Op>, k: nat)
    requires k < |ops|
  {
    ops[k].Present? && Accepts(Run(cfg, ops[..k]), ops[k].token, ops[k].at)
  }

  /** Whether the token was accepted at some step, in time or late. */
  ghost predicate Used(cfg: Config, ops: seq<Op>, t: Token) {
    exists k: nat :: k < |ops| && Refreshes(cfg, ops, k) && ops[k].token == t
  }

  /** Whether steps i and j both accept the same token of the login. */
  predicate Reuses(cfg: Config, ops: seq<Op>, i: nat, j: nat, login: nat) {
    i < j < |ops| && Refreshes(cfg, ops, i) && Refreshes(cfg, ops, j) && ops[i].token == ops[j].token
    && ops[i].token.login == login
  }

  /** No token of the login is accepted at two steps. */
  ghost predicate OncePerToken(cfg: Config, ops: seq<Op>, login: nat) {
    forall i: nat, j: nat :: !Reuses(cfg, ops, i, j, login)
  }

  /** A second acceptance of a token, however much lies in between, comes in its final second. */
  lemma SecondUseIsLate(cfg: Config, ops: seq<Op>, i: nat, j: nat, login: nat)
    requires Chronological(ops) && Reuses(cfg, ops, i, j, login)
    ensures ops[j].token.exp as real - 1.0 < ops[j].at < ops[j].token.exp as real
  {
    hide Run, Accepts, Decode, Spends;
    var t, before := ops[j].token, ops[..j];
    AcceptedIsAlive(Run(cfg, before), t, ops[j].at);
    if ops[j].at <= t.exp as real - 1.0 {
      assert ops[i].at <= Last(before).at <= ops[j].at;
      assert before[..i] == ops[..i] && before[i] == ops[i];
      RefreshSpends(cfg, before, i);
      hide Refreshes, Chronological;
      RefreshTokenIsUsedOnce(cfg, before, t, ops[j].at);
    }
  }

  lemma AcceptedIsAlive(sys: System, t: Token, now: real)
    ensures Accepts(sys, t, now) ==> now < t.exp as real
  {
  }

  lemma RefreshSpends(cfg: Config, ops: seq<Op>, k: nat)
    requires k < |ops| && Refreshes(cfg, ops, k)
    ensures Spends(cfg, ops, k, ops[k].token)
    ensures ops[k].at <= ops[k].token.exp as real - 1.0 ==> SpentInTime(cfg, ops, ops[k].token)
  {
    hide Run, Accepts, Decode;
  }

  /** Tokens never refreshed in their final second are never accepted twice. */
  lemma InTimeIsOnce(cfg: Config, ops: seq<Op>, login: nat)
    requires Chronological(ops)
    requires forall k: nat :: k < |ops| && Refreshes(cfg, ops, k) && ops[k].token.login == login ==>
               ops[k].at <= ops[k].token.exp as real - 1.0
    ensures OncePerToken(cfg, ops, login)
  {
    hide Run, Accepts, Chronological;
    forall i: nat, j: nat
      ensures !Reuses(cfg, ops, i, j, login)
    {
      if Reuses(cfg, ops, i, j, login) { SecondUseIsLate(cfg, ops, i, j, login); }
    }
  }

  predicate InOneLogin(sys: System, a: nat, b: nat, login: nat)
    requires a in sys.signed && b in sys.signed
  {
    sys.signed[a].kind.Refresh? && sys.signed[b].kind.Refresh? && sys.signed[a].login == login == sys.signed[b].login
  }

  /** Of the refresh tokens of the login, all but the newest have been accepted once. */
  ghost predicate Linear(cfg: Config, ops: seq<Op>, sys: System, login: nat) {
    forall a, b :: a in sys.signed && b in sys.signed && a < b && InOneLogin(sys, a, b, login) ==>
      Used(cfg, ops, sys.signed[a])
  }

  lemma RefreshesBefore(cfg: Config, ops: seq<Op>, k: nat)
    requires ops != [] && k < |ops| - 1
    ensures Refreshes(cfg, ops, k) <==> Refreshes(cfg, Init(ops), k)
  {
    hide Run, Accepts;
    assert ops[..k] == Init(ops)[..k];
  }

  lemma UsedSnoc(cfg: Config, ops: seq<Op>, t: Token)
    requires ops != []
    ensures Used(cfg, ops, t) <==> Used(cfg, Init(ops), t) || (Refreshes(cfg, ops, |ops| - 1) && Last(ops).token == t)
  {
    forall k: nat | k < |ops| - 1
      ensures Refreshes(cfg, ops, k) <==> Refreshes(cfg, Init(ops), k)
    {
      RefreshesBefore(cfg, ops, k);
    }
    hide Refreshes;
  }

  lemma OnceBefore(cfg: Config, ops: seq<Op>, login: nat)
    requires ops != [] && OncePerToken(cfg, ops, login)
    ensures OncePerToken(cfg, Init(ops), login)
    ensures Refreshes(cfg, ops, |ops| - 1) && Last(ops).token.login == login ==> !Used(cfg, Init(ops), Last(ops).token)
  {
    var before := Init(ops);
    forall k: nat | k < |ops| - 1
      ensures Refreshes(cfg, ops, k) <==> Refreshes(cfg, before, k)
    {
      RefreshesBefore(cfg, ops, k);
    }
    hide Run, Accepts;
    forall i: nat, j: nat
      ensures !Reuses(cfg, before, i, j, login)
    {
      assert !Reuses(cfg, ops, i, j, login);
    }
    forall k: nat | k < |before| && Refreshes(cfg, before, k)
      && Refreshes(cfg, ops, |ops| - 1) && Last(ops).token.login == login
      ensures before[k].token != Last(ops).token
    {
      assert !Reuses(cfg, ops, k, |ops| - 1, login);
    }
  }

  /** The tokens a step signs: none, or one pair of a new login or of the login of the accepted token. */
  lemma StepSigns(cfg: Config, sys: System, op: Op, j: nat)
    requires WellSigned(sys)
    ensures var next := Step(cfg, sys, op);
            && (j in sys.signed ==> j in next.signed && next.signed[j] == sys.signed[j])
            && (j in next.signed && j !in sys.signed && next.signed[j].kind.Refresh? ==>
                  j == sys.next + 1
                  && (op.Login? ==> next.signed[j].login == sys.next)
                  && (!op.Login? ==>
                        && op.Present? && Accepts(sys, op.token, op.at)
                        && next.signed[j].login == op.token.login && op.token.kind.Refresh?
                        && op.token.jti in sys.signed && sys.signed[op.token.jti] == op.token))
  {
  }

  /** If no token of a login is accepted twice, its tokens form one chain. */
  lemma {:induction false} RunsAreLinear(cfg: Config, ops: seq<Op>, login: nat)
    requires OncePerToken(cfg, ops, login)
    ensures Linear(cfg, ops, Run(cfg, ops), login)
  {
    if ops != [] {
      OnceBefore(cfg, ops, login);
      RunsAreLinear(cfg, Init(ops), login);
      RunsAreWellSigned(cfg, Init(ops));
      var sys, op := Run(cfg, Init(ops)), Last(ops);
      var next := Run(cfg, ops);
      assert next == Step(cfg, sys, op);
      hide Step, Run, Used, OncePerToken, Refreshes, Accepts;
      forall a, b | a in next.signed && b in next.signed && a < b && InOneLogin(next, a, b, login)
        ensures Used(cfg, ops, next.signed[a])
      {
        StepSigns(cfg, sys, op, a);
        StepSigns(cfg, sys, op, b);
        UsedSnoc(cfg, ops, next.signed[a]);
        if b !in sys.signed {
          OthersAreUsed(cfg, ops, sys, a, login);
        }
      }
    }
  }

  /** When a token of a linear login is accepted for the first time, every other token of the login has been used. */
  lemma OthersAreUsed(cfg: Config, ops: seq<Op>, sys: System, a: nat, login: nat)
    requires ops != [] && Last(ops).Present? && sys == Run(cfg, Init(ops))
    requires Linear(cfg, Init(ops), sys, login) && Accepts(sys, Last(ops).token, Last(ops).at)
    requires !Used(cfg, Init(ops), Last(ops).token)
    requires a in sys.signed && Last(ops).token.jti in sys.signed
    requires sys.signed[Last(ops).token.jti] == Last(ops).token && InOneLogin(sys, a, Last(ops).token.jti, login)
    ensures Used(cfg, ops, sys.signed[a])
  {
    var x := Last(ops).token;
    assert Refreshes(cfg, ops, |ops| - 1) by { hide Run, Accepts; assert ops[..|ops| - 1] == Init(ops); }
    hide Run, Accepts, Used, Refreshes;
    UsedSnoc(cfg, ops, sys.signed[a]);
    assert InOneLogin(sys, x.jti, a, login);
    if x.jti < a {
      assert false;
    }
  }

  /**
   * One usable token per login. If no token of a login is accepted twice, then at any instant at most
   * one refresh token of that login is usable, apart from tokens in their final second; what other
   * logins do makes no difference.
   */
  lemma OneUsableTokenPerLogin(cfg: Config, ops: seq<Op>, a: Token, b: Token, now: real)
    requires Chronological(ops) && OncePerToken(cfg, ops, a.login) && (ops != [] ==> Last(ops).at <= now)
    requires a.login == b.login && Accepts(Run(cfg, ops), a, now) && Accepts(Run(cfg, ops), b, now)
    requires now <= a.exp as real - 1.0 && now <= b.exp as real - 1.0
    ensures a == b
  {
    RunsAreLinear(cfg, ops, a.login);
    RunsAreWellSigned(cfg, ops);
    hide Run, Used, OncePerToken, Chronological;
    if a.jti < b.jti {
      assert InOneLogin(Run(cfg, ops), a.jti, b.jti, a.login);
      UsedIsNotUsable(cfg, ops, a, now);
    } else if b.jti < a.jti {
      assert InOneLogin(Run(cfg, ops), b.jti, a.jti, a.login);
      UsedIsNotUsable(cfg, ops, b, now);
    }
  }

  /** Whether it was used in time or late, a used token is not usable before its final second. */
  lemma UsedIsNotUsable(cfg: Config, ops: seq<Op>, t: Token, now: real)
    requires Chronological(ops) && Used(cfg, ops, t) && (ops != [] ==> Last(ops).at <= now)
    ensures now <= t.exp as real - 1.0 ==> !Accepts(Run(cfg, ops), t, now)
  {
    hide Run, Accepts;
    var k: nat :| k < |ops| && Refreshes(cfg, ops, k) && ops[k].token == t;
    assert ops[k].at <= Last(ops).at;
    if now <= t.exp as real - 1.0 {
      RefreshSpends(cfg, ops, k);
      hide Spends, Chronological, Refreshes;
      RefreshTokenIsUsedOnce(cfg, ops, t, now);
    }
  }

  // ---------------------------------------------------------------- two chains

  /**
   * Every refresh token was signed with the configured lifetime, no later than `now`, and only signed
   * tokens are blacklisted.
   */
  ghost predicate SignedBy(cfg: Config, sys: System, now: real) {
    && (forall j :: j in sys.signed && sys.signed[j].kind.Refresh? ==>
          sys.signed[j].exp <= Truncate(now + (cfg.refreshDays * 86400) as real))
    && (forall j :: j in sys.memory ==> j in sys.signed)
  }

  lemma StepSignsBy(cfg: Config, sys: System, op: Op, now: real)
    requires SignedBy(cfg, sys, now) && now <= op.at
    ensures SignedBy(cfg, Step(cfg, sys, op), op.at)
  {
    hide Ttl;
  }

  lemma {:induction false} RunsSignBy(cfg: Config, ops: seq<Op>, now: real)
    requires Chronological(ops) && (ops != [] ==> Last(ops).at <= now)
    ensures SignedBy(cfg, Run(cfg, ops), now)
  {
    if ops != [] {
      var before := Init(ops);
      if before != [] { assert Last(before) == ops[|ops| - 2]; }
      RunsSignBy(cfg, before, Last(ops).at);
      StepSignsBy(cfg, Run(cfg, before), Last(ops), Last(ops).at);
      hide Step;
    }
  }

  /**
   * The condition cannot be dropped: in any run, two consecutive acceptances of a token leave two usable
   * refresh tokens of its login, and both are far from their final second when the first acceptance
   * was late.
   */
  lemma TwoUsesFork(cfg: Config, ops: seq<Op>, t: Token, first: real, second: real)
    returns (a: Token, b: Token)
    requires Chronological(ops) && (ops != [] ==> Last(ops).at <= first) && first <= second
    requires Accepts(Run(cfg, ops), t, first) && Accepts(Run(cfg, ops + [Present(t, first)]), t, second)
    ensures var sys := Run(cfg, ops + [Present(t, first), Present(t, second)]);
            a != b && a.login == b.login == t.login && Accepts(sys, a, second) && Accepts(sys, b, second)
    ensures first > t.exp as real - 1.0 && cfg.refreshDays >= 1 ==>
              second <= a.exp as real - 86398.0 && second <= b.exp as real - 86398.0
  {
    var s0, s1 := Run(cfg, ops), Run(cfg, ops + [Present(t, first)]);
    a, b := PairAt(cfg, s0, t.login, first).refresh, PairAt(cfg, s1, t.login, second).refresh;
    RunsAreWellSigned(cfg, ops);
    RunsSignBy(cfg, ops, first);
    RunTwo(cfg, ops, Present(t, first), Present(t, second));
    hide Run;
    ForkNow(cfg, s0, t, first, second);
  }

  /** So from any run, presenting a usable token twice in its final second starts two chains. */
  lemma FinalSecondForks(cfg: Config, ops: seq<Op>, t: Token, first: real, second: real)
    returns (a: Token, b: Token)
    requires Chronological(ops) && (ops != [] ==> Last(ops).at <= first) && Accepts(Run(cfg, ops), t, first)
    requires t.exp as real - 1.0 < first <= second < t.exp as real
    ensures var sys := Run(cfg, ops + [Present(t, first), Present(t, second)]);
            a != b && a.login == b.login == t.login && Accepts(sys, a, second) && Accepts(sys, b, second)
    ensures cfg.refreshDays >= 1 ==> second <= a.exp as real - 86398.0 && second <= b.exp as real - 86398.0
  {
    RunsAreWellSigned(cfg, ops);
    ReplayExactly(cfg, Run(cfg, ops), t, first, second);
    RunTwo(cfg, ops, Present(t, first), Present(t, second));
    hide Run, Accepts;
    a, b := TwoUsesFork(cfg, ops, t, first, second);
  }

  lemma RunTwo(cfg: Config, ops: seq<Op>, p: Op, q: Op)
    ensures Run(cfg, ops + [p]) == Step(cfg, Run(cfg, ops), p)
    ensures Run(cfg, ops + [p, q]) == Step(cfg, Step(cfg, Run(cfg, ops), p), q)
  {
    hide Step;
    assert Init(ops + [p]) == ops && Init(ops + [p, q]) == ops + [p];
  }

  lemma ForkNow(cfg: Config, sys: System, t: Token, first: real, second: real)
    requires WellSigned(sys) && SignedBy(cfg, sys, first) && first <= second
    requires Accepts(sys, t, first) && Accepts(AfterRefresh(cfg, sys, t, first), t, second)
    ensures var s1 := AfterRefresh(cfg, sys, t, first);
            var s2 := AfterRefresh(cfg, s1, t, second);
            var a, b := PairAt(cfg, sys, t.login, first).refresh, PairAt(cfg, s1, t.login, second).refresh;
            && a != b && Accepts(s2, a, second) && Accepts(s2, b, second)
            && (first > t.exp as real - 1.0 && cfg.refreshDays >= 1 ==>
                  second <= a.exp as real - 86398.0 && second <= b.exp as real - 86398.0)
  {
    var s1 := AfterRefresh(cfg, sys, t, first);
    ChildIsUsable(cfg, sys, t, first);
    assert SignedBy(cfg, s1, second) by { hide AfterRefresh; SignedLater(cfg, s1, first, second); }
    ChildIsUsable(cfg, s1, t, second);
    UnblockedStays(cfg, s1, PairAt(cfg, sys, t.login, first).refresh, t, second);
    hide AfterRefresh, WellSigned, SignedBy;
  }

  lemma SignedLater(cfg: Config, sys: System, now: real, later: real)
    requires SignedBy(cfg, sys, now) && now <= later
    ensures SignedBy(cfg, sys, later)
  {
  }

  /** A signed token nobody blacklisted. */
  predicate Unblocked(sys: System, t: Token) {
    t.jti in sys.signed && sys.signed[t.jti] == t && t.jti !in sys.memory
  }

  lemma ChildIsUsable(cfg: Config, sys: System, t: Token, now: real)
    requires WellSigned(sys) && SignedBy(cfg, sys, now) && Accepts(sys, t, now)
    ensures var next, child := AfterRefresh(cfg, sys, t, now), PairAt(cfg, sys, t.login, now).refresh;
            && WellSigned(next) && SignedBy(cfg, next, now)
            && Unblocked(next, child)
            && child.exp >= t.exp && t.jti < child.jti == sys.next + 1 < next.next
  {
    hide Ttl;
  }

  lemma UnblockedStays(cfg: Config, sys: System, a: Token, t: Token, now: real)
    requires WellSigned(sys) && Unblocked(sys, a) && a.jti != t.jti
    ensures Unblocked(AfterRefresh(cfg, sys, t, now), a)
  {
    hide Ttl;
  }

  // ---------------------------------------------------------------- exactly when a login is a chain

  /** The unused refresh tokens of a login, by `jti`. */
  ghost function Unused(cfg: Config, ops: seq<Op>, login: nat): set<nat> {
    var sys := Run(cfg, ops);
    set j | j in sys.signed && sys.signed[j].kind.Refresh? && sys.signed[j].login == login
            && !Used(cfg, ops, sys.signed[j])
  }

  /** Whether the last step accepts a token of the login. */
  predicate LastUses(cfg: Config, ops: seq<Op>, login: nat) {
    ops != [] && Refreshes(cfg, ops, |ops| - 1) && Last(ops).token.login == login
  }

  /** How many steps accept a token of the login that was accepted before. */
  ghost function ReuseCount(cfg: Config, ops: seq<Op>, login: nat): nat {
    if ops == [] then 0
    else
      ReuseCount(cfg, Init(ops), login) +
      (if LastUses(cfg, ops, login) && Used(cfg, Init(ops), Last(ops).token) then 1 else 0)
  }

  /** Whether the login has been made, as a number: logins are numbered by what is signed next. */
  function LoginCount(cfg: Config, ops: seq<Op>, login: nat): nat {
    if ops == [] then 0
    else
      LoginCount(cfg, Init(ops), login) +
      (if Last(ops).Login? && Run(cfg, Init(ops)).next == login then 1 else 0)
  }

  lemma {:induction false} UsedIsSigned(cfg: Config, ops: seq<Op>, t: Token)
    requires Used(cfg, ops, t)
    ensures IsSigned(Run(cfg, ops), t) && t.kind.Refresh?
  {
    var k: nat :| k < |ops| && Refreshes(cfg, ops, k) && ops[k].token == t;
    if k == |ops| - 1 {
      assert ops[..k] == Init(ops);
      RunsAreWellSigned(cfg, Init(ops));
      StepKeepsSigned(cfg, Run(cfg, Init(ops)), Last(ops), t);
    } else {
      RefreshesBefore(cfg, ops, k);
      UsedIsSigned(cfg, Init(ops), t);
      RunsAreWellSigned(cfg, Init(ops));
      StepKeepsSigned(cfg, Run(cfg, Init(ops)), Last(ops), t);
    }
  }

  lemma StepKeepsSigned(cfg: Config, sys: System, op: Op, t: Token)
    requires WellSigned(sys)
    ensures IsSigned(sys, t) ==> IsSigned(Step(cfg, sys, op), t)
    ensures op.Present? && op.token == t && Accepts(sys, t, op.at) ==> IsSigned(sys, t) && t.kind.Refresh?
  {
  }

  /** What a step signs for a login: one refresh token if it makes the login or accepts one of its tokens. */
  lemma StepSignsFor(cfg: Config, sys: System, op: Op, login: nat, j: nat)
    requires WellSigned(sys)
    ensures var next := Step(cfg, sys, op);
            var signs := (op.Login? && sys.next == login)
                         || (op.Present? && Accepts(sys, op.token, op.at) && op.token.login == login);
            j in next.signed && next.signed[j].kind.Refresh? && next.signed[j].login == login <==>
              || (j in sys.signed && sys.signed[j].kind.Refresh? && sys.signed[j].login == login)
              || (signs && j == sys.next + 1)
  {
  }

  /** Which signed tokens are used after one more step. */
  lemma UsedAfterStep(cfg: Config, ops: seq<Op>, j: nat)
    requires ops != [] && j in Run(cfg, ops).signed
    ensures var sys, t := Run(cfg, Init(ops)), Run(cfg, ops).signed[j];
            && (j in sys.signed ==> sys.signed[j] == t)
            && (j !in sys.signed ==> !Used(cfg, ops, t))
            && (Used(cfg, ops, t) <==>
                  Used(cfg, Init(ops), t) || (Refreshes(cfg, ops, |ops| - 1) && Last(ops).token.jti == j))
  {
    var sys, op, t := Run(cfg, Init(ops)), Last(ops), Run(cfg, ops).signed[j];
    RunsAreWellSigned(cfg, Init(ops));
    RunsAreWellSigned(cfg, ops);
    LastRefreshes(cfg, ops);
    UsedSnoc(cfg, ops, t);
    if Used(cfg, Init(ops), t) { UsedIsSigned(cfg, Init(ops), t); }
    assert j in sys.signed ==> IsSigned(sys, sys.signed[j]);
    if j in sys.signed { StepKeepsSigned(cfg, sys, op, sys.signed[j]); }
    if Refreshes(cfg, ops, |ops| - 1) { StepKeepsSigned(cfg, sys, op, op.token); }
    hide Run, Step, Accepts, Refreshes, Used;
  }

  lemma LastRefreshes(cfg: Config, ops: seq<Op>)
    requires ops != []
    ensures Run(cfg, ops) == Step(cfg, Run(cfg, Init(ops)), Last(ops))
    ensures Refreshes(cfg, ops, |ops| - 1) <==>
            Last(ops).Present? && Accepts(Run(cfg, Init(ops)), Last(ops).token, Last(ops).at)
  {
    hide Step, Accepts;
    assert ops[..|ops| - 1] == Init(ops);
  }

  /** The unused tokens of a login after one more step. */
  ghost function UnusedNext(cfg: Config, ops: seq<Op>, login: nat): set<nat>
    requires ops != []
  {
    var sys, before := Run(cfg, Init(ops)), Unused(cfg, Init(ops), login);
    if LastUses(cfg, ops, login) then before - {Last(ops).token.jti} + {sys.next + 1}
    else if Last(ops).Login? && sys.next == login then before + {sys.next + 1}
    else before
  }

  lemma UnusedStep(cfg: Config, ops: seq<Op>, login: nat)
    requires ops != []
    ensures Unused(cfg, ops, login) == UnusedNext(cfg, ops, login)
    ensures Run(cfg, Init(ops)).next + 1 !in Unused(cfg, Init(ops), login)
    ensures LastUses(cfg, ops, login) ==>
              (Last(ops).token.jti in Unused(cfg, Init(ops), login) <==> !Used(cfg, Init(ops), Last(ops).token))
  {
    var sys, op, next := Run(cfg, Init(ops)), Last(ops), Run(cfg, ops);
    RunsAreWellSigned(cfg, Init(ops));
    LastRefreshes(cfg, ops);
    if LastUses(cfg, ops, login) { StepKeepsSigned(cfg, sys, op, op.token); }
    hide Run, Step, Accepts, Refreshes, Used;
    forall j
      ensures j in Unused(cfg, ops, login) <==> j in UnusedNext(cfg, ops, login)
    {
      StepSignsFor(cfg, sys, op, login, j);
      if j in next.signed { UsedAfterStep(cfg, ops, j); }
    }
  }

  /**
   * Conservation. A login has one unused refresh token for having been made, and one more for every time a
   * token of it was accepted that had been accepted before; no step ever takes one away for good.
   */
  lemma {:induction false} UnusedTokensCountReuses(cfg: Config, ops: seq<Op>, login: nat)
    ensures |Unused(cfg, ops, login)| == LoginCount(cfg, ops, login) + ReuseCount(cfg, ops, login)
  {
    if ops == [] {
      assert Unused(cfg, ops, login) == {};
    } else {
      UnusedTokensCountReuses(cfg, Init(ops), login);
      UnusedStep(cfg, ops, login);
      LastRefreshes(cfg, ops);
      hide Run, Step, Accepts, Refreshes, Used, Unused;
    }
  }

  lemma {:induction false} TokensHaveLogin(cfg: Config, ops: seq<Op>, j: nat)
    requires j in Run(cfg, ops).signed && Run(cfg, ops).signed[j].kind.Refresh?
    ensures LoginCount(cfg, ops, Run(cfg, ops).signed[j].login) >= 1
  {
    if ops != [] {
      var sys, op, login := Run(cfg, Init(ops)), Last(ops), Run(cfg, ops).signed[j].login;
      RunsAreWellSigned(cfg, Init(ops));
      LastRefreshes(cfg, ops);
      StepSignsFor(cfg, sys, op, login, j);
      if op.Present? { StepKeepsSigned(cfg, sys, op, op.token); }
      hide Step, Accepts;
      if j in sys.signed && sys.signed[j].kind.Refresh? && sys.signed[j].login == login {
        TokensHaveLogin(cfg, Init(ops), j);
      } else if op.Present? {
        TokensHaveLogin(cfg, Init(ops), op.token.jti);
      }
    }
  }

  /** No reuse is counted exactly when no two steps accept the same token. */
  lemma {:induction false} OnceIsNoReuse(cfg: Config, ops: seq<Op>, login: nat)
    ensures OncePerToken(cfg, ops, login) <==> ReuseCount(cfg, ops, login) == 0
  {
    if ops == [] {
      assert forall i: nat, j: nat :: !Reuses(cfg, ops, i, j, login);
    } else {
      OnceIsNoReuse(cfg, Init(ops), login);
      OnceSnoc(cfg, ops, login);
      hide Refreshes, Used, OncePerToken;
    }
  }

  lemma OnceSnoc(cfg: Config, ops: seq<Op>, login: nat)
    requires ops != []
    ensures OncePerToken(cfg, ops, login) <==>
            OncePerToken(cfg, Init(ops), login)
            && !(LastUses(cfg, ops, login) && Used(cfg, Init(ops), Last(ops).token))
  {
    if OncePerToken(cfg, ops, login) {
      OnceBefore(cfg, ops, login);
    } else {
      var i: nat, j: nat :| Reuses(cfg, ops, i, j, login);
      RefreshesBefore(cfg, ops, i);
      if j < |ops| - 1 {
        RefreshesBefore(cfg, ops, j);
        assert Reuses(cfg, Init(ops), i, j, login);
      } else {
        assert Init(ops)[i] == ops[i];
        hide Run, Accepts;
      }
    }
  }

  /**
   * Exactly when a login is a chain, all its refresh tokens but the newest being used: when no token of it
   * was ever accepted twice. One reuse leaves a second unused token for good.
   */
  lemma ChainExactly(cfg: Config, ops: seq<Op>, login: nat)
    ensures Linear(cfg, ops, Run(cfg, ops), login) <==> OncePerToken(cfg, ops, login)
  {
    if OncePerToken(cfg, ops, login) {
      RunsAreLinear(cfg, ops, login);
    }
    if Linear(cfg, ops, Run(cfg, ops), login) {
      var unused := Unused(cfg, ops, login);
      UnusedTokensCountReuses(cfg, ops, login);
      OnceIsNoReuse(cfg, ops, login);
      assert |unused| <= 1 by {
        forall a, b | a in unused && b in unused
          ensures a == b
        {
          assert InOneLogin(Run(cfg, ops), a, b, login) && InOneLogin(Run(cfg, ops), b, a, login);
        }
        hide *;
        AtMostOne(unused);
      }
      if ReuseCount(cfg, ops, login) > 0 {
        ReusedHasLogin(cfg, ops, login);
      }
    }
  }

  lemma AtMostOne(s: set<nat>)
    requires forall a, b :: a in s && b in s ==> a == b
    ensures |s| <= 1
  {
    if a :| a in s { assert s == {a}; }
  }

  lemma {:induction false} ReusedHasLogin(cfg: Config, ops: seq<Op>, login: nat)
    requires ReuseCount(cfg, ops, login) > 0
    ensures LoginCount(cfg, ops, login) >= 1
  {
    if ReuseCount(cfg, Init(ops), login) > 0 {
      ReusedHasLogin(cfg, Init(ops), login);
    } else {
      UsedIsSigned(cfg, Init(ops), Last(ops).token);
      TokensHaveLogin(cfg, Init(ops), Last(ops).token.jti);
    }
  }

  /**
   * The same in times: a login is a chain if and only if whenever one of its used tokens is presented again
   * the token has expired or its latest blacklist entry has not lapsed.
   */
  lemma ChainInTimes(cfg: Config, ops: seq<Op>, login: nat)
    requires Chronological(ops)
    ensures Linear(cfg, ops, Run(cfg, ops), login) <==>
            forall k: nat :: k < |ops| ==> !RevivedAt(cfg, ops, k, login)
  {
    ChainExactly(cfg, ops, login);
    forall k: nat | k < |ops|
      ensures RevivedAt(cfg, ops, k, login) <==>
              Refreshes(cfg, ops, k) && ops[k].token.login == login && Used(cfg, ops[..k], ops[k].token)
    {
      RevivedIsReused(cfg, ops, k, login);
    }
    hide RevivedAt, Refreshes;
    if OncePerToken(cfg, ops, login) {
      forall k: nat | k < |ops|
        ensures !RevivedAt(cfg, ops, k, login)
      {
        if RevivedAt(cfg, ops, k, login) { ReusedBefore(cfg, ops, k, login); }
      }
    } else {
      var i: nat, j: nat :| Reuses(cfg, ops, i, j, login);
      UsedAt(cfg, ops, i, j);
      assert RevivedAt(cfg, ops, j, login);
    }
  }

  /** Whether step k presents a used token of the login before it expires and after its latest entry lapsed. */
  ghost predicate RevivedAt(cfg: Config, ops: seq<Op>, k: nat, login: nat)
    requires k < |ops|
  {
    ops[k].Present?
    && var t, before := ops[k].token, ops[..k];
       && t.login == login && Used(cfg, before, t) && ops[k].at < t.exp as real
       && (Until(cfg, before, t).Some? ==> Until(cfg, before, t).value < ops[k].at)
  }

  lemma RevivedIsReused(cfg: Config, ops: seq<Op>, k: nat, login: nat)
    requires Chronological(ops) && k < |ops|
    ensures RevivedAt(cfg, ops, k, login) <==>
            Refreshes(cfg, ops, k) && ops[k].token.login == login && Used(cfg, ops[..k], ops[k].token)
  {
    if ops[k].Present? && Used(cfg, ops[..k], ops[k].token) {
      var before := ops[..k];
      UsedIsSigned(cfg, before, ops[k].token);
      if before != [] { assert Last(before) == ops[k - 1]; }
      AcceptedExactly(cfg, before, ops[k].token, ops[k].at);
    }
    hide Run, Until, Used, Accepts;
  }

  lemma ReusedBefore(cfg: Config, ops: seq<Op>, j: nat, login: nat)
    requires j < |ops| && Refreshes(cfg, ops, j) && ops[j].token.login == login && Used(cfg, ops[..j], ops[j].token)
    ensures !OncePerToken(cfg, ops, login)
  {
    var before := ops[..j];
    var i: nat :| i < |before| && Refreshes(cfg, before, i) && before[i].token == ops[j].token;
    assert before[..i] == ops[..i];
    assert Reuses(cfg, ops, i, j, login);
  }

  lemma UsedAt(cfg: Config, ops: seq<Op>, i: nat, j: nat)
    requires i < j < |ops| && Refreshes(cfg, ops, i)
    ensures Used(cfg, ops[..j], ops[i].token)
  {
    var before := ops[..j];
    assert before[..i] == ops[..i] && before[i] == ops[i];
    assert Refreshes(cfg, before, i);
  }
}
