/**
 * Refresh-token rotation (gateway/auth/jwt_manager.py) over the in-memory blacklist
 * (gateway/auth/token_blacklist.py).
 *
 * A token is the record of its claims, its `jti` a number never issued twice; only tokens this manager
 * signed decode. `login` is not a claim: it records which login a token descends from. A manager call
 * is one atomic step with one reading of the clock, since nothing on the in-memory path suspends it.
 */
module RefreshTokens {
  import opened Basics

  datatype Kind = Access | Refresh

  datatype Token = Token(jti: nat, kind: Kind, exp: int, login: nat)

  // ---------------------------------------------------------------- blacklist

  /** The time to live given to a revoked token: what is left of it, in whole seconds. */
  function Ttl(exp: int, now: real): int {
    MaxInt(0, Truncate(exp as real - now))
  }

  function Blacklisted(memory: map<nat, real>, jti: nat, ttl: int, now: real): map<nat, real> {
    if ttl <= 0 then memory else memory[jti := now + ttl as real]
  }

  predicate IsBlacklisted(memory: map<nat, real>, jti: nat, now: real) {
    jti in memory && memory[jti] >= now
  }

  /** A lookup drops the entry it finds lapsed. */
  function AfterLookup(memory: map<nat, real>, jti: nat, now: real): map<nat, real> {
    if jti in memory && memory[jti] < now then memory - {jti} else memory
  }

  class TokenBlacklist {
    var memory: map<nat, real>

    constructor ()
      ensures memory == map[]
    {
      memory := map[];
    }

    method Add(jti: nat, ttlSeconds: int, now: real)
      modifies this
      ensures memory == Blacklisted(old(memory), jti, ttlSeconds, now)
    {
      if ttlSeconds <= 0 {
        return;
      }
      memory := memory[jti := now + ttlSeconds as real];
    }

    method Contains(jti: nat, now: real) returns (found: bool)
      modifies this
      ensures found == IsBlacklisted(old(memory), jti, now)
      ensures memory == AfterLookup(old(memory), jti, now)
      ensures found <==> jti in memory
    {
      if jti !in memory {
        return false;
      }
      if memory[jti] < now {
        memory := memory - {jti};
        return false;
      }
      return true;
    }
  }

  // ---------------------------------------------------------------- manager

  datatype Config = Config(accessMinutes: int, refreshDays: int)

  datatype Error = InvalidToken | TokenExpired | TokenRevoked

  datatype Result<+T> = Ok(value: T) | Err(error: Error)

  datatype TokenPair = TokenPair(access: Token, refresh: Token)

  /** Everything the manager's answers depend on: what it signed, the next `jti`, the blacklist. */
  datatype System = System(signed: map<nat, Token>, next: nat, memory: map<nat, real>)

  const START := System(map[], 0, map[])

  /** The signature and the `exp` claim: section 4.1.4 of RFC 7519, on or after which a token is void. */
  function Decode(sys: System, t: Token, now: real): Result<Token> {
    if t.jti !in sys.signed || sys.signed[t.jti] != t then Err(InvalidToken)
    else if t.exp as real <= now then Err(TokenExpired)
    else Ok(t)
  }

  function PairAt(cfg: Config, sys: System, login: nat, now: real): TokenPair {
    TokenPair(Token(sys.next, Access, Truncate(now + (cfg.accessMinutes * 60) as real), login),
              Token(sys.next + 1, Refresh, Truncate(now + (cfg.refreshDays * 86400) as real), login))
  }

  function AfterIssue(cfg: Config, sys: System, login: nat, now: real): System {
    var pair := PairAt(cfg, sys, login, now);
    sys.(signed := sys.signed[sys.next := pair.access][sys.next + 1 := pair.refresh], next := sys.next + 2)
  }

  function VerifyRefresh(sys: System, t: Token, now: real): Result<Token> {
    match Decode(sys, t, now)
    case Err(e) => Err(e)
    case Ok(_) =>
      if !t.kind.Refresh? then Err(InvalidToken)
      else if IsBlacklisted(sys.memory, t.jti, now) then Err(TokenRevoked)
      else Ok(t)
  }

  /** Verification is an observation, except that it drops a lapsed blacklist entry. */
  function AfterVerify(sys: System, t: Token, now: real): System {
    if Decode(sys, t, now).Ok? && t.kind.Refresh? then sys.(memory := AfterLookup(sys.memory, t.jti, now)) else sys
  }

  predicate Accepts(sys: System, t: Token, now: real) {
    VerifyRefresh(sys, t, now).Ok?
  }

  function AfterRefresh(cfg: Config, sys: System, t: Token, now: real): System {
    var looked := AfterVerify(sys, t, now);
    if !Accepts(sys, t, now) then looked
    else AfterIssue(cfg, looked.(memory := Blacklisted(looked.memory, t.jti, Ttl(t.exp, now), now)), t.login, now)
  }

  function AfterRevoke(sys: System, t: Token, now: real): System {
    if Decode(sys, t, now).Ok? then sys.(memory := Blacklisted(sys.memory, t.jti, Ttl(t.exp, now), now)) else sys
  }

  class JWTManager {
    const cfg: Config
    const blacklist: TokenBlacklist
    var signed: map<nat, Token>
    var next: nat

    function Current(): System
      reads this, blacklist
    {
      System(signed, next, blacklist.memory)
    }

    constructor (cfg: Config)
      ensures this.cfg == cfg && Current() == START && fresh(blacklist)
    {
      this.cfg := cfg;
      blacklist := new TokenBlacklist();
      signed, next := map[], 0;
    }

    method Issue(login: nat, now: real) returns (pair: TokenPair)
      modifies this
      ensures pair == PairAt(cfg, old(Current()), login, now)
      ensures Current() == AfterIssue(cfg, old(Current()), login, now)
    {
      var access := Token(next, Access, Truncate(now + (cfg.accessMinutes * 60) as real), login);
      var refresh := Token(next + 1, Refresh, Truncate(now + (cfg.refreshDays * 86400) as real), login);
      signed := signed[next := access][next + 1 := refresh];
      next := next + 2;
      pair := TokenPair(access, refresh);
    }

    method VerifyRefreshToken(t: Token, now: real) returns (r: Result<Token>)
      modifies blacklist
      ensures r == VerifyRefresh(old(Current()), t, now) && Current() == AfterVerify(old(Current()), t, now)
    {
      var decoded := Decode(Current(), t, now);
      if decoded.Err? {
        return decoded;
      }
      if !t.kind.Refresh? {
        return Err(InvalidToken);
      }
      var revoked := blacklist.Contains(t.jti, now);
      if revoked {
        return Err(TokenRevoked);
      }
      return Ok(t);
    }

    method RefreshPair(t: Token, now: real) returns (r: Result<TokenPair>)
      modifies this, blacklist
      ensures r.Ok? <==> Accepts(old(Current()), t, now)
      ensures r.Ok? ==> r.value == PairAt(cfg, old(Current()), t.login, now)
      ensures r.Err? ==> VerifyRefresh(old(Current()), t, now) == Err(r.error)
      ensures Current() == AfterRefresh(cfg, old(Current()), t, now)
    {
      var claims := VerifyRefreshToken(t, now);
      if claims.Err? {
        return Err(claims.error);
      }
      blacklist.Add(t.jti, Ttl(t.exp, now), now);
      var pair := Issue(t.login, now);
      return Ok(pair);
    }

    method Revoke(t: Token, now: real) returns (ok: bool)
      modifies blacklist
      ensures ok <==> Decode(old(Current()), t, now).Ok?
      ensures Current() == AfterRevoke(old(Current()), t, now)
    {
      if Decode(Current(), t, now).Err? {
        return false;
      }
      blacklist.Add(t.jti, Ttl(t.exp, now), now);
      return true;
    }
  }

  // ---------------------------------------------------------------- one token, presented twice

  /** Jtis are handed out in order, and every signed token is filed under its own. */
  ghost predicate WellSigned(sys: System) {
    forall j :: j in sys.signed ==> sys.signed[j].login <= j < sys.next && sys.signed[j].jti == j
  }

  /**
   * When exactly a token accepted at `t` is accepted again at `later`, if no step lies in between: it has
   * not expired, and its blacklist entry, made to the whole second, has lapsed or was never made because
   * less than a second was left. `AcceptedExactly` is the condition over whole runs.
   */
  lemma ReplayExactly(cfg: Config, sys: System, tok: Token, t: real, later: real)
    requires WellSigned(sys) && Accepts(sys, tok, t) && t <= later
    ensures Accepts(AfterRefresh(cfg, sys, tok, t), tok, later) <==>
            later < tok.exp as real && (Ttl(tok.exp, t) == 0 || t + Ttl(tok.exp, t) as real < later)
  {
  }

  /** Presented again at once, a token is accepted again if and only if it is in its final second. */
  lemma ImmediateReplayOnlyInFinalSecond(cfg: Config, sys: System, tok: Token, t: real)
    requires WellSigned(sys) && Accepts(sys, tok, t)
    ensures Accepts(AfterRefresh(cfg, sys, tok, t), tok, t) <==> tok.exp as real - t < 1.0
  {
    ReplayExactly(cfg, sys, tok, t, t);
  }

  // ---------------------------------------------------------------- runs

  datatype Op =
    | Login(at: real)
    | Present(token: Token, at: real)
    | Revoke(token: Token, at: real)
    | Verify(token: Token, at: real)

  /** Logins are numbered by the `jti` of their first access token. */
  function Step(cfg: Config, sys: System, op: Op): System {
    match op
    case Login(at) => AfterIssue(cfg, sys, sys.next, at)
    case Present(t, at) => AfterRefresh(cfg, sys, t, at)
    case Revoke(t, at) => AfterRevoke(sys, t, at)
    case Verify(t, at) => AfterVerify(sys, t, at)
  }

  function Run(cfg: Config, ops: seq<Op>): System {
    if ops == [] then START else Step(cfg, Run(cfg, Init(ops)), Last(ops))
  }

  ghost predicate Chronological(ops: seq<Op>) {
    forall i, j :: 0 <= i <= j < |ops| ==> ops[i].at <= ops[j].at
  }

  /** Whether step k of the run spends the token: a refresh that is accepted, or a revocation that takes. */
  predicate Spends(cfg: Config, ops: seq<Op>, k: nat, t: Token)
    requires k < |ops|
  {
    (ops[k].Present? && ops[k].token == t && Accepts(Run(cfg, ops[..k]), t, ops[k].at)) ||
    (ops[k].Revoke? && ops[k].token == t && Decode(Run(cfg, ops[..k]), t, ops[k].at).Ok?)
  }

  /** Whether the token was spent at some step while at least a second of it was left. */
  ghost predicate SpentInTime(cfg: Config, ops: seq<Op>, t: Token) {
    exists k: nat :: k < |ops| && Spends(cfg, ops, k, t) && ops[k].at <= t.exp as real - 1.0
  }

  lemma {:induction false} RunsAreWellSigned(cfg: Config, ops: seq<Op>)
    ensures WellSigned(Run(cfg, ops))
  {
    if ops != [] { RunsAreWellSigned(cfg, Init(ops)); }
  }

  lemma SpentSnoc(cfg: Config, ops: seq<Op>, t: Token)
    requires ops != []
    ensures SpentInTime(cfg, ops, t) <==>
            SpentInTime(cfg, Init(ops), t) || (Spends(cfg, ops, |ops| - 1, t) && Last(ops).at <= t.exp as real - 1.0)
  {
    hide Run, Step, Accepts, Decode;
    assert forall k: nat :: k < |ops| - 1 ==> ops[..k] == Init(ops)[..k];
    assert forall k: nat :: k < |ops| - 1 ==> (Spends(cfg, ops, k, t) <==> Spends(cfg, Init(ops), k, t));
  }

  // ---------------------------------------------------------------- acceptance over whole runs

  predicate SpendsNow(sys: System, op: Op, t: Token) {
    (op.Present? && op.token == t && Accepts(sys, t, op.at)) ||
    (op.Revoke? && op.token == t && Decode(sys, t, op.at).Ok?)
  }

  /** The end of the blacklist entry made by the latest step that spent the token with a second of it left. */
  function Until(cfg: Config, ops: seq<Op>, t: Token): Option<real> {
    if ops == [] then None
    else UntilNext(Run(cfg, Init(ops)), Last(ops), t, Until(cfg, Init(ops), t))
  }

  function UntilNext(sys: System, op: Op, t: Token, until: Option<real>): Option<real> {
    if SpendsNow(sys, op, t) && Ttl(t.exp, op.at) > 0 then Some(op.at + Ttl(t.exp, op.at) as real) else until
  }

  predicate IsSigned(sys: System, t: Token) {
    t.jti in sys.signed && sys.signed[t.jti] == t
  }

  /** The blacklist holds the token until then, or has dropped an entry that lapsed. */
  ghost predicate Tracks(sys: System, t: Token, until: Option<real>, now: real) {
    && (t.jti in sys.memory ==> t.jti in sys.signed)
    && (until.Some? ==> IsSigned(sys, t))
    && (IsSigned(sys, t) ==>
          if t.jti in sys.memory then until == Some(sys.memory[t.jti]) else until.Some? ==> until.value < now)
  }

  lemma StepTracks(cfg: Config, sys: System, op: Op, t: Token, until: Option<real>, now: real)
    requires WellSigned(sys) && Tracks(sys, t, until, now) && now <= op.at
    ensures Tracks(Step(cfg, sys, op), t, UntilNext(sys, op, t, until), op.at)
  {
    hide Ttl;
  }

  lemma {:induction false} RunsTrack(cfg: Config, ops: seq<Op>, t: Token, now: real)
    requires Chronological(ops) && (ops != [] ==> Last(ops).at <= now)
    ensures Tracks(Run(cfg, ops), t, Until(cfg, ops, t), now)
  {
    if ops != [] {
      var before, at := Init(ops), Last(ops).at;
      if before != [] { assert Last(before) == ops[|ops| - 2]; }
      RunsTrack(cfg, before, t, at);
      RunsAreWellSigned(cfg, before);
      StepTracks(cfg, Run(cfg, before), Last(ops), t, Until(cfg, before, t), at);
      hide Step, UntilNext, IsSigned;
    }
  }

  /**
   * The exact condition. After any run, a token is accepted if and only if it was signed, is a refresh
   * token, has not expired, and the entry of the latest step that spent it has lapsed, if any made one.
   */
  lemma AcceptedExactly(cfg: Config, ops: seq<Op>, t: Token, now: real)
    requires Chronological(ops) && (ops != [] ==> Last(ops).at <= now)
    ensures Accepts(Run(cfg, ops), t, now) <==>
            && IsSigned(Run(cfg, ops), t) && t.kind.Refresh? && now < t.exp as real
            && (Until(cfg, ops, t).Some? ==> Until(cfg, ops, t).value < now)
  {
    RunsTrack(cfg, ops, t, now);
    hide Run, Until;
  }

  /** Exactly why a token is refused, in the order of the checks. */
  lemma RefusedExactly(cfg: Config, ops: seq<Op>, t: Token, now: real)
    requires Chronological(ops) && (ops != [] ==> Last(ops).at <= now)
    ensures var sys, r := Run(cfg, ops), VerifyRefresh(Run(cfg, ops), t, now);
            r == if !IsSigned(sys, t) then Err(InvalidToken)
                 else if t.exp as real <= now then Err(TokenExpired)
                 else if t.kind.Access? then Err(InvalidToken)
                 else if Until(cfg, ops, t).Some? && now <= Until(cfg, ops, t).value then Err(TokenRevoked)
                 else Ok(t)
  {
    AcceptedExactly(cfg, ops, t, now);
    hide Run, Until;
  }

  /**
   * What a login or a refresh at `now` hands out: two new signed tokens of the login, an access token that
   * lives for the configured minutes and a refresh token that lives for the configured days, less the
   * fraction of a second; only the second can be refreshed.
   */
  lemma IssuedPairLives(cfg: Config, sys: System, login: nat, now: real, later: real)
    requires WellSigned(sys) && 0.0 <= now <= later && cfg.accessMinutes >= 0 && cfg.refreshDays >= 0
    ensures var pair, next := PairAt(cfg, sys, login, now), AfterIssue(cfg, sys, login, now);
            && pair.access.jti !in sys.signed && pair.refresh.jti !in sys.signed && pair.access.jti != pair.refresh.jti
            && pair.access.login == pair.refresh.login == login
            && pair.access.kind.Access? && pair.refresh.kind.Refresh?
            && (later <= now + cfg.accessMinutes as real * 60.0 - 1.0 ==>
                  Decode(next, pair.access, later) == Ok(pair.access))
            && (later >= now + cfg.accessMinutes as real * 60.0 ==>
                  Decode(next, pair.access, later) == Err(TokenExpired))
            && (later <= now + cfg.refreshDays as real * 86400.0 - 1.0 ==>
                  Decode(next, pair.refresh, later) == Ok(pair.refresh))
            && (later >= now + cfg.refreshDays as real * 86400.0 ==>
                  Decode(next, pair.refresh, later) == Err(TokenExpired))
            && !Accepts(next, pair.access, later)
  {
  }

  /** The latest entry counts, not the one that ends last: a revocation replaces the entry of a use. */
  lemma RevocationReplacesEntry(cfg: Config, ops: seq<Op>, t: Token, used: real, revoked: real, now: real)
    requires Chronological(ops) && (ops != [] ==> Last(ops).at <= used) && used <= revoked <= now
    requires Accepts(Run(cfg, ops), t, used) && Ttl(t.exp, revoked) > 0
    ensures Accepts(Run(cfg, ops + [Present(t, used), Revoke(t, revoked)]), t, now) <==>
            now < t.exp as real && revoked + Ttl(t.exp, revoked) as real < now
  {
    var one, two := ops + [Present(t, used)], ops + [Present(t, used), Revoke(t, revoked)];
    assert Init(one) == ops && Init(two) == one;
    RunsAreWellSigned(cfg, ops);
    UseKeepsSigned(cfg, Run(cfg, ops), t, used, revoked);
    assert Run(cfg, one) == AfterRefresh(cfg, Run(cfg, ops), t, used);
    assert Run(cfg, two) == AfterRevoke(Run(cfg, one), t, revoked);
    assert Until(cfg, two, t) == Some(revoked + Ttl(t.exp, revoked) as real);
    AcceptedExactly(cfg, two, t, now);
  }

  lemma UseKeepsSigned(cfg: Config, sys: System, t: Token, used: real, revoked: real)
    requires WellSigned(sys) && Accepts(sys, t, used) && Ttl(t.exp, revoked) > 0
    ensures t.kind.Refresh? && IsSigned(AfterRefresh(cfg, sys, t, used), t)
    ensures Decode(AfterRefresh(cfg, sys, t, used), t, revoked).Ok?
    ensures IsSigned(AfterRevoke(AfterRefresh(cfg, sys, t, used), t, revoked), t)
  {
  }

  /**
   * So revoking a used token can revive it: a token used with 50 seconds left is dead for good, until it is
   * revoked half a second later; then it is accepted once more, a quarter of a second before it expires.
   */
  lemma RevocationRevives(t: Token)
    requires t == Token(1, Refresh, 86400, 0)
    ensures var cfg, use, revocation := Config(15, 1), [Login(0.0), Present(t, 86350.0)], [Revoke(t, 86350.5)];
            && Accepts(Run(cfg, [Login(0.0)]), t, 86350.0)
            && (forall now :: 86350.0 <= now ==> !Accepts(Run(cfg, use), t, now))
            && Accepts(Run(cfg, use + revocation), t, 86399.75)
  {
    var cfg, login := Config(15, 1), [Login(0.0)];
    assert Init(login) == [] && Run(cfg, []) == START;
    assert Run(cfg, login) == AfterIssue(cfg, START, 0, 0.0);
    assert Ttl(86400, 86350.0) == 50 && Ttl(86400, 86350.5) == 49;
    assert Accepts(Run(cfg, login), t, 86350.0);
    assert login + [Present(t, 86350.0)] == [Login(0.0), Present(t, 86350.0)];
    assert login + [Present(t, 86350.0), Revoke(t, 86350.5)] ==
           [Login(0.0), Present(t, 86350.0)] + [Revoke(t, 86350.5)];
    RunsAreWellSigned(cfg, login);
    assert Run(cfg, login + [Present(t, 86350.0)]) == AfterRefresh(cfg, Run(cfg, login), t, 86350.0) by {
      assert Init(login + [Present(t, 86350.0)]) == login;
    }
    hide Run, Accepts, Ttl, AfterRefresh, WellSigned;
    forall now | 86350.0 <= now
      ensures !Accepts(Run(cfg, login + [Present(t, 86350.0)]), t, now)
    {
      ReplayExactly(cfg, Run(cfg, login), t, 86350.0, now);
    }
    RevocationReplacesEntry(cfg, login, t, 86350.0, 86350.5, 86399.75);
  }

  /** A signed token that is blacklisted into its final second. */
  ghost predicate Blocked(sys: System, t: Token) {
    && t.jti in sys.signed && sys.signed[t.jti] == t
    && t.jti in sys.memory && sys.memory[t.jti] > t.exp as real - 1.0
  }

  lemma TtlReachesFinalSecond(exp: int, now: real)
    requires now <= exp as real - 1.0
    ensures Ttl(exp, now) > 0 && now + Ttl(exp, now) as real > exp as real - 1.0
  {
  }

  /** It is the number of whole seconds left. */
  lemma TtlIsWholeSeconds(exp: int, now: real)
    ensures now <= exp as real ==> Ttl(exp, now) as real <= exp as real - now < Ttl(exp, now) as real + 1.0
    ensures now >= exp as real ==> Ttl(exp, now) == 0
  {
  }

  lemma SpendingBlocks(cfg: Config, sys: System, op: Op, t: Token)
    requires WellSigned(sys) && SpendsNow(sys, op, t) && op.at <= t.exp as real - 1.0
    ensures Blocked(Step(cfg, sys, op), t)
  {
    TtlReachesFinalSecond(t.exp, op.at);
  }

  lemma BlockedStays(cfg: Config, sys: System, op: Op, t: Token)
    requires WellSigned(sys) && Blocked(sys, t) && op.at <= t.exp as real - 1.0
    ensures Blocked(Step(cfg, sys, op), t)
  {
    TtlReachesFinalSecond(t.exp, op.at);
  }

  /** A token spent in time stays blacklisted until it is in its final second. */
  lemma {:induction false} SpentStaysBlocked(cfg: Config, ops: seq<Op>, t: Token)
    requires Chronological(ops) && SpentInTime(cfg, ops, t)
    ensures Last(ops).at <= t.exp as real - 1.0 ==> Blocked(Run(cfg, ops), t)
  {
    SpentIsNotEmpty(cfg, ops, t);
    hide Step, Accepts, Decode, Blocked, SpentInTime;
    SpentSnoc(cfg, ops, t);
    RunsAreWellSigned(cfg, Init(ops));
    assert ops[..|ops| - 1] == Init(ops);
    if Last(ops).at <= t.exp as real - 1.0 {
      if SpentInTime(cfg, Init(ops), t) {
        SpentIsNotEmpty(cfg, Init(ops), t);
        assert Last(Init(ops)) == ops[|ops| - 2];
        SpentStaysBlocked(cfg, Init(ops), t);
        BlockedStays(cfg, Run(cfg, Init(ops)), Last(ops), t);
      } else {
        SpendingBlocks(cfg, Run(cfg, Init(ops)), Last(ops), t);
      }
    }
  }

  lemma SpentIsNotEmpty(cfg: Config, ops: seq<Op>, t: Token)
    requires SpentInTime(cfg, ops, t)
    ensures ops != []
  {
  }

  /**
   * Used once. A refresh token accepted (or revoked) at any step of any run, while at least a second of
   * it was left, is rejected at every later instant up to one second before its expiry, and from its
   * expiry on.
   */
  lemma RefreshTokenIsUsedOnce(cfg: Config, ops: seq<Op>, t: Token, now: real)
    requires Chronological(ops) && SpentInTime(cfg, ops, t) && Last(ops).at <= now
    requires now <= t.exp as real - 1.0 || t.exp as real <= now
    ensures !Accepts(Run(cfg, ops), t, now)
  {
    SpentStaysBlocked(cfg, ops, t);
    hide Run;
  }
}
