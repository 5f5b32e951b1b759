/**
 * The decision service on a rules deployment (decision/service.py, decision/engine.py): one request,
 * or a batch that is scattered over the cache and the engine and gathered again.
 *
 * Feature extraction is part of the request; a cache key is any function of the features and the strategy
 * override. Any Redis operation of the cache may fail: `getUp` and `setUp` say which get through. Labels,
 * rationale, next steps, latencies and time stamps are not modelled.
 */
module DecisionServing {
  import opened Basics
  import opened OrderedDicts
  import opened DecisionRules
  import opened DecisionEnsemble
  import opened DecisionCaches

  datatype Override = Absent | RulesOnly | MlOnly | EnsembleOnly

  datatype Request = Request(
    requestId: Option<string>,
    sessionId: Option<string>,
    unitPrice: Option<real>,
    quantity: Option<int>,
    budget: Option<real>,
    override: Override,
    features: FeatureVector)

  datatype Response = Response(
    requestId: Option<string>,
    sessionId: Option<string>,
    action: string,
    confidence: real,
    confident: bool,
    riskScore: real,
    requiresReview: bool,
    candidates: Dict<real>,
    strategy: string,
    cached: bool,
    validationError: Option<string>)

  datatype Settings = Settings(
    rules: seq<Rule>,
    catalog: Catalog,
    topK: int,
    confidentThreshold: real,
    riskReviewThreshold: real,
    requireHumanReviewAbove: real,
    maxAutoApproveAmount: real,
    maxBatchSize: int,
    cacheEnabled: bool)

  datatype Error = Invalid(message: string) | BatchTooLarge | UnsupportedStrategy

  datatype Result<+T> = Ok(value: T) | Err(error: Error)

  datatype EngineDecision = EngineDecision(outcome: StrategyOutcome, actualStrategy: string)

  // ---------------------------------------------------------------- one request

  /** `_validate_request`: the first complaint, if any. */
  function Problem(q: Request): Option<string> {
    if q.unitPrice.Some? && q.unitPrice.value < 0.0 then Some("unit_price must be non-negative")
    else if q.quantity.Some? && q.quantity.value < 1 then Some("quantity must be >= 1")
    else if q.budget.Some? && q.budget.value < 0.0 then Some("budget must be non-negative")
    else None
  }

  /** The engine without an ML model: an ensemble of rules alone, and no `ml` strategy. */
  function EngineEvaluate(s: Settings, f: FeatureVector, override: Override): Result<EngineDecision> {
    var outcome := Evaluation(s.rules, f, s.catalog);
    match override
    case Absent => Ok(EngineDecision(outcome, "rules"))
    case RulesOnly => Ok(EngineDecision(outcome, "rules"))
    case EnsembleOnly => Ok(EngineDecision(TagOnlyRules(outcome, "ml_not_configured"), "ensemble"))
    case MlOnly => Err(UnsupportedStrategy)
  }

  /** The registered candidates among the first few, rounded once more. */
  function Listed(candidates: Dict<real>, catalog: Catalog): Dict<real> {
    if candidates == [] then []
    else
      (if candidates[0].key in catalog then [Entry(candidates[0].key, Round4(candidates[0].value))] else [])
      + Listed(candidates[1..], catalog)
  }

  function FirstFew(candidates: Dict<real>, n: nat): Dict<real> {
    if |candidates| <= n then candidates else candidates[..n]
  }

  function NeedsReview(s: Settings, f: FeatureVector, action: string, risk: real): bool {
    risk >= s.riskReviewThreshold ||
    (f.totalAmount > 0.0 && f.totalAmount >= s.requireHumanReviewAbove) ||
    action == "escalate_to_human" ||
    (action == "approve_purchase" && f.totalAmount > s.maxAutoApproveAmount)
  }

  function Materialize(s: Settings, q: Request, d: EngineDecision): Response {
    var listed := OrFallback(Listed(FirstFew(d.outcome.candidates, 1 + MaxInt(0, s.topK)), s.catalog));
    var top := listed[0];
    Response(q.requestId, q.sessionId, top.key, top.value, top.value >= s.confidentThreshold,
             Round4(d.outcome.riskScore), NeedsReview(s, q.features, top.key, d.outcome.riskScore),
             listed, d.actualStrategy, false, None)
  }

  /** Neither absent nor empty: Python's truth of an optional string. */
  predicate Given(id: Option<string>) {
    id.Some? && id.value != ""
  }

  /** A cached response, made the answer to this request. */
  function Replay(q: Request, stored: Response): Response {
    stored.(cached := true,
            requestId := if Given(q.requestId) then q.requestId else stored.requestId,
            sessionId := if Given(q.sessionId) then q.sessionId else stored.sessionId)
  }

  function ValidationResponse(q: Request, message: string): Response {
    Response(q.requestId, q.sessionId, FALLBACK_ACTION, 0.0, false, 0.0, false,
             [Entry(FALLBACK_ACTION, 0.0)], "validation-error", false, Some(message))
  }

  lemma {:induction false} ListedIsIdentity(candidates: Dict<real>, catalog: Catalog)
    requires forall e :: e in candidates ==> e.key in catalog && Round4(e.value) == e.value
    ensures Listed(candidates, catalog) == candidates
  {
    hide Round4;
    if candidates != [] {
      assert candidates[0] in candidates && forall e :: e in candidates[1..] ==> e in candidates;
      ListedIsIdentity(candidates[1..], catalog);
    }
  }

  /**
   * The response shows the strategy's ranking unchanged, cut to the configured length: materialising
   * drops no action and rounds nothing twice. So the action decided is the strategy's first.
   */
  lemma ResponseShowsTheRanking(s: Settings, q: Request, d: EngineDecision)
    requires EngineEvaluate(s, q.features, q.override) == Ok(d) && FALLBACK_ACTION in s.catalog
    ensures var r, cs := Materialize(s, q, d), Candidates(s.rules, q.features, s.catalog);
            r.candidates == FirstFew(cs, 1 + MaxInt(0, s.topK)) && r.action == cs[0].key && r.confidence == cs[0].value
  {
    var cs := Candidates(s.rules, q.features, s.catalog);
    assert d.outcome.candidates == cs;
    hide Round4, Candidates, SortDesc, Evaluation, EngineEvaluate;
    CandidatesFollowScores(s.rules, q.features, s.catalog);
    CandidatesAreKnown(s.rules, q.features, s.catalog);
    var few := FirstFew(cs, 1 + MaxInt(0, s.topK));
    assert forall e :: e in few ==> e in cs;
    ListedIsIdentity(few, s.catalog);
  }

  lemma CandidatesAreKnown(rules: seq<Rule>, f: FeatureVector, catalog: Catalog)
    requires FALLBACK_ACTION in catalog
    ensures forall e :: e in Candidates(rules, f, catalog) ==> e.key in catalog && Round4(e.value) == e.value
  {
    var ordered := SortDesc(Scores(rules, f));
    CandidatesAreShown(rules, f, catalog);
    ScoresDistinct(rules, f);
    SortDescSorts(Scores(rules, f));
    hide Round4, SortDesc, Scores;
    ShownRanked(ordered, catalog, f.userType);
    Round4Unit(0.0);
    forall e | e in Shown(ordered, catalog, f.userType)
      ensures e.key in catalog && Round4(e.value) == e.value
    {
      var shown := Shown(ordered, catalog, f.userType);
      var i :| 0 <= i < |shown| && shown[i] == e;
      Round4Unit(Min(1.0, ScoreOf(ordered, e.key)));
    }
  }

  // ---------------------------------------------------------------- what a request deserves

  /** The parts of a response that decide anything. */
  datatype Verdict = Verdict(
    action: string,
    confidence: real,
    confident: bool,
    riskScore: real,
    requiresReview: bool,
    candidates: Dict<real>,
    strategy: string)

  function VerdictOf(r: Response): Verdict {
    Verdict(r.action, r.confidence, r.confident, r.riskScore, r.requiresReview, r.candidates, r.strategy)
  }

  /** What a valid request is answered when nothing is cached. */
  function FreshVerdict(s: Settings, q: Request): Result<Verdict> {
    match EngineEvaluate(s, q.features, q.override)
    case Ok(d) => Ok(VerdictOf(Materialize(s, q, d)))
    case Err(e) => Err(e)
  }

  type KeyFunction = (FeatureVector, Override) -> string

  /** Equal cache keys give equal outcomes, refusals included. */
  ghost predicate KeysDecide(s: Settings, key: KeyFunction) {
    forall q1: Request, q2: Request ::
      key(q1.features, q1.override) == key(q2.features, q2.override) ==> FreshVerdict(s, q1) == FreshVerdict(s, q2)
  }

  /** A stored response is what any request with its key would be answered. */
  ghost predicate Sane(s: Settings, key: KeyFunction, k: string, stored: Response) {
    forall q: Request :: key(q.features, q.override) == k ==> FreshVerdict(s, q) == Ok(VerdictOf(stored))
  }

  ghost predicate Coherent(s: Settings, key: KeyFunction, c: Tiers<Response>) {
    && (forall e :: e in c.mem ==> Sane(s, key, e.key, e.value))
    && (c.redis.Some? ==> forall k :: k in c.redis.value ==> Sane(s, key, k, c.redis.value[k]))
  }

  lemma HitIsSane(s: Settings, key: KeyFunction, cfg: Config, c: Tiers<Response>, k: string, up: bool)
    requires Coherent(s, key, c)
    ensures Lookup(cfg, c, k, up).Some? ==> Sane(s, key, k, Lookup(cfg, c, k, up).value)
  {
    FindMember(c.mem, k);
  }

  lemma WrittenMembers(capacity: nat, mem: Dict<Response>, k: string, v: Response, e: Entry<Response>)
    requires e in LruWrite(capacity, mem, k, v)
    ensures e == Entry(k, v) || e in mem
  {
    WithoutMember(mem, k, e);
  }

  lemma GetKeepsCoherent(s: Settings, key: KeyFunction, cfg: Config, c: Tiers<Response>, k: string, up: bool)
    requires Coherent(s, key, c)
    ensures Coherent(s, key, AfterGet(cfg, c, k, up))
  {
    hide Sane;
    HitIsSane(s, key, cfg, c, k, up);
    FindMember(c.mem, k);
    forall e | e in AfterGet(cfg, c, k, up).mem
      ensures Sane(s, key, e.key, e.value)
    {
      WithoutMember(c.mem, k, e);
      if LruRead(cfg.capacity, c.mem, k) == None && Lookup(cfg, c, k, up).Some? {
        WrittenMembers(cfg.capacity, c.mem, k, Lookup(cfg, c, k, up).value, e);
      }
    }
  }

  lemma SetKeepsCoherent(s: Settings, key: KeyFunction, cfg: Config, c: Tiers<Response>, k: string, v: Response,
                         up: bool)
    requires Coherent(s, key, c) && Sane(s, key, k, v)
    ensures Coherent(s, key, AfterSet(cfg, c, k, v, up))
  {
    hide Sane;
    forall e | e in AfterSet(cfg, c, k, v, up).mem
      ensures Sane(s, key, e.key, e.value)
    {
      WrittenMembers(cfg.capacity, c.mem, k, v, e);
    }
  }

  /** What the engine just decided may be stored for everybody with the same key. */
  lemma FreshIsSane(s: Settings, key: KeyFunction, q: Request, d: EngineDecision)
    requires KeysDecide(s, key) && EngineEvaluate(s, q.features, q.override) == Ok(d)
    ensures Sane(s, key, key(q.features, q.override), Materialize(s, q, d))
  {
    hide Materialize, EngineEvaluate;
    assert FreshVerdict(s, q) == Ok(VerdictOf(Materialize(s, q, d)));
  }

  /** What every caller gets for a request, however it was served. */
  ghost predicate Answers(s: Settings, q: Request, r: Response) {
    match Problem(q)
    case Some(message) => r == ValidationResponse(q, message)
    case None =>
      && FreshVerdict(s, q) == Ok(VerdictOf(r))
      && (Given(q.requestId) ==> r.requestId == q.requestId)
      && (Given(q.sessionId) ==> r.sessionId == q.sessionId)
  }

  /** Two answers to the same valid request, one of a batch and one alone, say the same. */
  lemma AnswersAgree(s: Settings, q: Request, r1: Response, r2: Response)
    requires Answers(s, q, r1) && Answers(s, q, r2)
    ensures VerdictOf(r1) == VerdictOf(r2)
    ensures Given(q.requestId) ==> r1.requestId == r2.requestId
  {
    hide Materialize, EngineEvaluate;
  }

  /** Whether the request asks for the strategy this deployment does not have. */
  predicate Refused(q: Request) {
    Problem(q) == None && q.override.MlOnly?
  }

  lemma ReplayAnswers(s: Settings, key: KeyFunction, q: Request, stored: Response)
    requires Problem(q) == None && Sane(s, key, key(q.features, q.override), stored)
    ensures Answers(s, q, Replay(q, stored)) && !Refused(q) && Replay(q, stored).cached
    ensures q.requestId == None || q.requestId == Some("") ==> Replay(q, stored).requestId == stored.requestId
    ensures q.sessionId == None || q.sessionId == Some("") ==> Replay(q, stored).sessionId == stored.sessionId
  {
    hide Materialize, Evaluation;
  }

  lemma MaterializeAnswers(s: Settings, q: Request, d: EngineDecision)
    requires Problem(q) == None && EngineEvaluate(s, q.features, q.override) == Ok(d)
    ensures Answers(s, q, Materialize(s, q, d)) && !Materialize(s, q, d).cached
  {
    hide Evaluation, Listed, Round4;
  }

  // ---------------------------------------------------------------- what is served from the cache, what is stored

  /** A service as it is deployed: its settings, its key function and its cache's configuration. */
  datatype Deployment = Deployment(settings: Settings, key: KeyFunction, cache: Config)

  function KeyOf(d: Deployment, q: Request): string {
    d.key(q.features, q.override)
  }

  /** The cached response to a valid request, if caching is on and there is one. */
  function Recalled(d: Deployment, c: Tiers<Response>, q: Request, up: bool): Option<Response> {
    if !d.settings.cacheEnabled then None
    else
      match Lookup(d.cache, c, KeyOf(d, q), up)
      case Some(stored) => Some(Replay(q, stored))
      case None => None
  }

  function AfterRecall(d: Deployment, c: Tiers<Response>, q: Request, up: bool): Tiers<Response> {
    if d.settings.cacheEnabled then AfterGet(d.cache, c, KeyOf(d, q), up) else c
  }

  function AfterRemember(d: Deployment, c: Tiers<Response>, q: Request, r: Response, up: bool): Tiers<Response> {
    if d.settings.cacheEnabled then AfterSet(d.cache, c, KeyOf(d, q), r, up) else c
  }

  /** What the engine decides for a request it does not refuse. */
  function Decision(s: Settings, q: Request): Response
    requires !q.override.MlOnly?
  {
    Materialize(s, q, EngineEvaluate(s, q.features, q.override).value)
  }

  /** The answer to one valid request: the cached one, or else a fresh one, unless the engine refuses it. */
  function Decided(d: Deployment, c: Tiers<Response>, q: Request, getUp: bool): Result<Response> {
    match Recalled(d, c, q, getUp)
    case Some(r) => Ok(r)
    case None => if q.override.MlOnly? then Err(UnsupportedStrategy) else Ok(Decision(d.settings, q))
  }

  lemma DecisionAnswers(s: Settings, q: Request)
    requires Problem(q) == None && !q.override.MlOnly?
    ensures Answers(s, q, Decision(s, q)) && !Decision(s, q).cached
  {
    hide Evaluation, Listed, Round4;
  }

  /** The cache after it: looked up, and written to when the answer is fresh. */
  function AfterDecide(d: Deployment, c: Tiers<Response>, q: Request, getUp: bool, setUp: bool): Tiers<Response> {
    var looked := AfterRecall(d, c, q, getUp);
    if Recalled(d, c, q, getUp).Some? || q.override.MlOnly? then looked
    else AfterRemember(d, looked, q, Decision(d.settings, q), setUp)
  }

  /** The cache after the lookups of the first n items of a batch; invalid items are not looked up. */
  function AfterRecalls(d: Deployment, c: Tiers<Response>, items: seq<Request>, up: nat -> bool, n: nat)
    : Tiers<Response>
    requires n <= |items|
  {
    if n == 0 then c
    else
      var before := AfterRecalls(d, c, items, up, n - 1);
      if Problem(items[n - 1]).Some? then before else AfterRecall(d, before, items[n - 1], up(n - 1))
  }

  /** The answer to item i that needs no engine: the complaint about it, or its cached response. */
  function Early(d: Deployment, c: Tiers<Response>, items: seq<Request>, up: nat -> bool, i: nat): Option<Response>
    requires i < |items|
  {
    match Problem(items[i])
    case Some(message) => Some(ValidationResponse(items[i], message))
    case None => Recalled(d, AfterRecalls(d, c, items, up, i), items[i], up(i))
  }

  /** The first n items' positions that are left to the engine, in order. */
  function Pending(d: Deployment, c: Tiers<Response>, items: seq<Request>, up: nat -> bool, n: nat): seq<nat>
    requires n <= |items|
  {
    if n == 0 then []
    else Pending(d, c, items, up, n - 1) + (if Early(d, c, items, up, n - 1) == None then [n - 1] else [])
  }

  /** The cache after the fresh decisions for those positions have been stored, in order. */
  function AfterRemembers(d: Deployment, c: Tiers<Response>, items: seq<Request>, positions: seq<nat>, up: nat -> bool)
    : Tiers<Response>
    requires forall j :: 0 <= j < |positions| ==> positions[j] < |items| && !items[positions[j]].override.MlOnly?
  {
    if positions == [] then c
    else
      var q, before := items[Last(positions)], AfterRemembers(d, c, items, Init(positions), up);
      AfterRemember(d, before, q, Decision(d.settings, q), up(|positions| - 1))
  }

  /** The response slots that are filled, in order. */
  function Gather(results: seq<Option<Response>>): seq<Response> {
    if results == [] then []
    else (if results[0].Some? then [results[0].value] else []) + Gather(results[1..])
  }

  lemma {:induction false} GatherAll(results: seq<Option<Response>>)
    requires forall i :: 0 <= i < |results| ==> results[i].Some?
    ensures |Gather(results)| == |results|
    ensures forall i :: 0 <= i < |results| ==> Gather(results)[i] == results[i].value
  {
    if results != [] { GatherAll(results[1..]); }
  }

  class DecisionService {
    const settings: Settings
    const key: KeyFunction
    const cache: DecisionCache<Response>

    ghost predicate Valid()
      reads cache
    {
      cache.Valid() && Coherent(settings, key, cache.Current()) && KeysDecide(settings, key)
    }

    function Deployed(): Deployment {
      Deployment(settings, key, cache.cfg)
    }

    constructor (settings: Settings, key: KeyFunction, cache: DecisionCache<Response>)
      requires cache.Valid() && Coherent(settings, key, cache.Current()) && KeysDecide(settings, key)
      ensures Valid() && this.settings == settings && this.key == key && this.cache == cache
    {
      this.settings := settings;
      this.key := key;
      this.cache := cache;
    }

    /** The engine's `evaluate`. */
    method EvaluateOne(f: FeatureVector, override: Override) returns (r: Result<EngineDecision>)
      ensures r == EngineEvaluate(settings, f, override)
    {
      hide Evaluation;
      if override.MlOnly? {
        return Err(UnsupportedStrategy);
      }
      var rules := DecisionRules.Evaluate(settings.rules, f, settings.catalog);
      if override.EnsembleOnly? {
        return Ok(EngineDecision(TagOnlyRules(rules, "ml_not_configured"), "ensemble"));
      }
      return Ok(EngineDecision(rules, "rules"));
    }

    /** The engine's `evaluate_batch`: one strategy for the whole batch. */
    method EvaluateBatch(batch: seq<FeatureVector>, override: Override) returns (r: Result<seq<EngineDecision>>)
      ensures batch != [] ==> (r.Err? <==> override.MlOnly?)
      ensures r.Err? ==> r.error == UnsupportedStrategy
      ensures r.Ok? ==> |r.value| == |batch| && forall i :: 0 <= i < |batch| ==>
                          Ok(r.value[i]) == EngineEvaluate(settings, batch[i], override)
    {
      hide EngineEvaluate;
      if batch == [] {
        return Ok([]);
      }
      if override.MlOnly? {
        return Err(UnsupportedStrategy);
      }
      var decisions: seq<EngineDecision> := [];
      while |decisions| < |batch|
        invariant |decisions| <= |batch|
        invariant forall i :: 0 <= i < |decisions| ==> Ok(decisions[i]) == EngineEvaluate(settings, batch[i], override)
        decreases |batch| - |decisions|
      {
        OnlyMlFails(settings, batch[|decisions|], override);
        var one := EvaluateOne(batch[|decisions|], override);
        decisions := decisions + [one.value];
      }
      return Ok(decisions);
    }

    /** `_materialize` */
    method MaterializeOne(q: Request, d: EngineDecision) returns (r: Response)
      ensures r == Materialize(settings, q, d)
    {
      hide Round4;
      var few := FirstFew(d.outcome.candidates, 1 + MaxInt(0, settings.topK));
      var listed: Dict<real> := [];
      var i := 0;
      while i < |few|
        invariant i <= |few|
        invariant listed + Listed(few[i..], settings.catalog) == Listed(few, settings.catalog)
      {
        ghost var rest := Listed(few[i + 1..], settings.catalog);
        assert few[i..][1..] == few[i + 1..];
        if few[i].key in settings.catalog {
          var e := Entry(few[i].key, Round4(few[i].value));
          assert listed + ([e] + rest) == (listed + [e]) + rest;
          listed := listed + [e];
        }
        i := i + 1;
      }
      assert listed + [] == listed;
      if listed == [] {
        listed := [Entry(FALLBACK_ACTION, 0.0)];
      }
      var top, risk := listed[0], d.outcome.riskScore;
      r := Response(q.requestId, q.sessionId, top.key, top.value, top.value >= settings.confidentThreshold,
                    Round4(risk), NeedsReview(settings, q.features, top.key, risk), listed,
                    d.actualStrategy, false, None);
    }

    /**
     * One request: refused when invalid or unsupported, and answered as if nothing were cached otherwise. The
     * cached answer is given when there is one; a fresh one is stored.
     */
    method Decide(q: Request, getUp: bool, setUp: bool) returns (r: Result<Response>)
      requires Valid()
      modifies cache
      ensures Valid()
      ensures Problem(q).Some? ==> r == Err(Invalid(Problem(q).value)) && cache.Current() == old(cache.Current())
      ensures Refused(q) ==> r == Err(UnsupportedStrategy)
      ensures Problem(q) == None && !Refused(q) ==> r.Ok? && Answers(settings, q, r.value)
      ensures Problem(q) == None ==>
                && r == Decided(Deployed(), old(cache.Current()), q, getUp)
                && cache.Current() == AfterDecide(Deployed(), old(cache.Current()), q, getUp, setUp)
    {
      hide Answers, Sane, Materialize, Coherent, KeysDecide, EngineEvaluate, Recalled, AfterRecall, AfterRemember;
      var problem := Problem(q);
      if problem.Some? {
        return Err(Invalid(problem.value));
      }
      var hit := Recall(q, getUp);
      if hit.Some? {
        return Ok(hit.value);
      }
      OnlyMlIsRefused(settings, q);
      var decision := EvaluateOne(q.features, q.override);
      if decision.Err? {
        return Err(decision.error);
      }
      var response := MaterializeOne(q, decision.value);
      MaterializeAnswers(settings, q, decision.value);
      Remember(q, decision.value, response, setUp);
      return Ok(response);
    }

    /**
     * A batch. It fails as a whole when it is too large or when any valid item asks for the missing
     * strategy; otherwise every slot is filled, in input order, with what its item would be answered
     * alone, an invalid item with its validation response. All items are looked up before any decision is
     * stored.
     */
    method DecideBatch(items: seq<Request>, getUp: nat -> bool, setUp: nat -> bool) returns (r: Result<seq<Response>>)
      requires Valid()
      modifies cache
      ensures Valid()
      ensures |items| > settings.maxBatchSize ==> r == Err(BatchTooLarge) && cache.Current() == old(cache.Current())
      ensures |items| <= settings.maxBatchSize ==>
                if exists i :: 0 <= i < |items| && Refused(items[i]) then r == Err(UnsupportedStrategy)
                else r.Ok? && |r.value| == |items|
                     && forall i :: 0 <= i < |items| ==> Answers(settings, items[i], r.value[i])
      ensures r.Ok? ==>
                var pending := Pending(Deployed(), old(cache.Current()), items, getUp, |items|);
                && (forall i: nat :: i < |items| ==>
                      var early := Early(Deployed(), old(cache.Current()), items, getUp, i);
                      if early.Some? then r.value[i] == early.value
                      else !items[i].override.MlOnly? && r.value[i] == Decision(settings, items[i]))
                && (forall j :: 0 <= j < |pending| ==> pending[j] < |items| && !items[pending[j]].override.MlOnly?)
                && cache.Current() == AfterRemembers(
                     Deployed(), AfterRecalls(Deployed(), old(cache.Current()), items, getUp, |items|),
                     items, pending, setUp)
      ensures r == Err(UnsupportedStrategy) ==>
                cache.Current() == AfterRecalls(Deployed(), old(cache.Current()), items, getUp, |items|)
    {
      hide Answers, Sane, Materialize, Coherent, KeysDecide, EngineEvaluate, Refused, Gather, Early, Pending,
           AfterRecalls, AfterRemember, Problem, Decision;
      if |items| > settings.maxBatchSize {
        return Err(BatchTooLarge);
      }
      var results, pending := Scatter(items, getUp);
      var outcomes := EvaluatePending(items, pending);
      if outcomes.Err? {
        return Err(outcomes.error);
      }
      var filled := Fill(items, results, pending, outcomes.value, setUp);
      return Ok(filled);
    }

    /** The second loop of `decide_batch`: every decision is stored and put into its slot. */
    method Fill(items: seq<Request>, slots: seq<Option<Response>>, pending: seq<nat>, outcomes: seq<EngineDecision>,
                setUp: nat -> bool)
      returns (results: seq<Response>)
      requires Valid() && |slots| == |items| && |outcomes| == |pending|
      requires forall j :: 0 <= j < |pending| ==>
                 && pending[j] < |items|
                 && var q := items[pending[j]];
                 Problem(q) == None && Ok(outcomes[j]) == EngineEvaluate(settings, q.features, q.override)
      requires forall i :: 0 <= i < |slots| ==> (i in pending <==> slots[i] == None)
      requires forall i :: 0 <= i < |slots| && slots[i].Some? ==> Answers(settings, items[i], slots[i].value)
      modifies cache
      ensures Valid() && |results| == |items|
      ensures forall j :: 0 <= j < |pending| ==> !items[pending[j]].override.MlOnly?
      ensures forall i :: 0 <= i < |items| ==>
                if slots[i].Some? then results[i] == slots[i].value
                else !items[i].override.MlOnly? && results[i] == Decision(settings, items[i])
      ensures forall i :: 0 <= i < |items| ==> Answers(settings, items[i], results[i])
      ensures cache.Current() == AfterRemembers(Deployed(), old(cache.Current()), items, pending, setUp)
    {
      hide Answers, Sane, Materialize, Coherent, KeysDecide, EngineEvaluate, Gather, AfterRemember, AfterRemembers,
           Decision, Problem, Filling;
      assert Filling(settings, items, slots, slots) by { FillingStarts(settings, items, slots); }
      PendingDecided(settings, items, pending, outcomes);
      StoredStep(Deployed(), cache.Current(), items, pending, setUp, 0);
      assert pending[..0] == [];
      var filled, j := slots, 0;
      while j < |pending|
        invariant j <= |pending| && |filled| == |items| && Valid() && Filling(settings, items, slots, filled)
        invariant forall k :: 0 <= k < j ==> filled[pending[k]].Some?
        invariant cache.Current() == AfterRemembers(Deployed(), old(cache.Current()), items, pending[..j], setUp)
      {
        var i := pending[j];
        var response := MaterializeOne(items[i], outcomes[j]);
        Remember(items[i], outcomes[j], response, setUp(j));
        FillOne(settings, items, slots, filled, i);
        filled := filled[i := Some(response)];
        StoredStep(Deployed(), old(cache.Current()), items, pending, setUp, j);
        j := j + 1;
      }
      assert pending[..j] == pending;
      FillingEnds(settings, items, slots, filled, pending);
      GatherAll(filled);
      results := Gather(filled);
      forall i | 0 <= i < |items|
        ensures Answers(settings, items[i], results[i])
      {
        if slots[i] == None { DecisionAnswers(settings, items[i]); }
      }
    }

    /** The first loop of `decide_batch`: slots that need no evaluation are filled, the others are pending. */
    method Scatter(items: seq<Request>, getUp: nat -> bool)
      returns (results: seq<Option<Response>>, pending: seq<nat>)
      requires Valid()
      modifies cache
      ensures Valid() && |results| == |items|
      ensures forall i: nat :: i < |items| ==> results[i] == Early(Deployed(), old(cache.Current()), items, getUp, i)
      ensures pending == Pending(Deployed(), old(cache.Current()), items, getUp, |items|)
      ensures cache.Current() == AfterRecalls(Deployed(), old(cache.Current()), items, getUp, |items|)
      ensures forall i :: 0 <= i < |items| && results[i].Some? ==>
                Answers(settings, items[i], results[i].value) && !Refused(items[i])
      ensures forall i :: 0 <= i < |items| ==> (i in pending <==> results[i] == None)
      ensures forall j :: 0 <= j < |pending| ==> pending[j] < |items| && Problem(items[pending[j]]) == None
    {
      hide Answers, Sane, Materialize, Coherent, KeysDecide, Refused, Recalled, AfterRecall, Early, Problem;
      ghost var d, found := Deployed(), cache.Current();
      results := seq(|items|, _ => None);
      pending := [];
      var i := 0;
      while i < |items|
        invariant i <= |items| == |results| && Valid()
        invariant forall k: nat :: k < i ==> results[k] == Early(d, found, items, getUp, k)
        invariant pending == Pending(d, found, items, getUp, i)
        invariant cache.Current() == AfterRecalls(d, found, items, getUp, i)
        invariant forall k :: 0 <= k < i && results[k].Some? ==>
                    Answers(settings, items[k], results[k].value) && !Refused(items[k])
      {
        hide Refused, Recalled, AfterRecall, Early, Pending, AfterRecalls, ValidationResponse;
        EarlyStep(d, found, items, getUp, i);
        var answer := AnswerWithoutEngine(items[i], getUp(i));
        if answer == None {
          pending := pending + [i];
        }
        results := results[i := answer];
        i := i + 1;
      }
      PendingMembers(d, found, items, getUp);
    }

    /** An invalid item is answered at once, a cached one from the cache, any other not yet. */
    method AnswerWithoutEngine(q: Request, up: bool) returns (answer: Option<Response>)
      requires Valid()
      modifies cache
      ensures Valid()
      ensures Problem(q).Some? ==>
                answer == Some(ValidationResponse(q, Problem(q).value)) && cache.Current() == old(cache.Current())
      ensures Problem(q) == None ==>
                && answer == Recalled(Deployed(), old(cache.Current()), q, up)
                && cache.Current() == AfterRecall(Deployed(), old(cache.Current()), q, up)
      ensures answer.Some? ==> Answers(settings, q, answer.value) && !Refused(q)
    {
      hide Sane, Materialize, Coherent, KeysDecide, FreshVerdict;
      var problem := Problem(q);
      if problem.Some? {
        return Some(ValidationResponse(q, problem.value));
      }
      answer := Recall(q, up);
    }

    /** One call of the engine's batch path when all overrides agree, single calls otherwise. */
    method EvaluatePending(items: seq<Request>, pending: seq<nat>) returns (r: Result<seq<EngineDecision>>)
      requires forall j :: 0 <= j < |pending| ==> pending[j] < |items| && Problem(items[pending[j]]) == None
      ensures r.Err? <==> exists j :: 0 <= j < |pending| && Refused(items[pending[j]])
      ensures r.Err? ==> r.error == UnsupportedStrategy
      ensures r.Ok? ==> |r.value| == |pending| && forall j :: 0 <= j < |pending| ==>
                          var q := items[pending[j]];
                          Ok(r.value[j]) == EngineEvaluate(settings, q.features, q.override)
    {
      hide EngineEvaluate, Problem;
      if pending == [] {
        return Ok([]);
      }
      var shared := items[pending[0]].override;
      if forall j :: 0 <= j < |pending| ==> items[pending[j]].override == shared {
        var features := seq(|pending|, j requires 0 <= j < |pending| => items[pending[j]].features);
        r := EvaluateBatch(features, shared);
        if r.Err? { assert Refused(items[pending[0]]); }
        return;
      }
      var decisions: seq<EngineDecision> := [];
      while |decisions| < |pending|
        invariant |decisions| <= |pending|
        invariant forall j :: 0 <= j < |decisions| ==>
                    var q := items[pending[j]];
                    !Refused(q) && Ok(decisions[j]) == EngineEvaluate(settings, q.features, q.override)
        decreases |pending| - |decisions|
      {
        var q := items[pending[|decisions|]];
        OnlyMlFails(settings, q.features, q.override);
        var one := EvaluateOne(q.features, q.override);
        if one.Err? {
          assert Refused(items[pending[|decisions|]]);
          return Err(one.error);
        }
        decisions := decisions + [one.value];
      }
      return Ok(decisions);
    }

    /** `cache.get` for a request, and the stored response made its own. */
    method Recall(q: Request, up: bool) returns (hit: Option<Response>)
      requires Valid() && Problem(q) == None
      modifies cache
      ensures Valid()
      ensures hit == Recalled(Deployed(), old(cache.Current()), q, up)
      ensures cache.Current() == AfterRecall(Deployed(), old(cache.Current()), q, up)
      ensures hit.Some? ==> Answers(settings, q, hit.value) && !Refused(q) && hit.value.cached
    {
      if !settings.cacheEnabled {
        return None;
      }
      var k := key(q.features, q.override);
      HitIsSane(settings, key, cache.cfg, cache.Current(), k, up);
      GetKeepsCoherent(settings, key, cache.cfg, cache.Current(), k, up);
      hide Answers, Sane, Coherent, KeysDecide, Refused;
      var stored := cache.Get(k, up);
      if stored == None {
        return None;
      }
      ReplayAnswers(settings, key, q, stored.value);
      return Some(Replay(q, stored.value));
    }

    /** `cache.set` of what the engine just decided. */
    method Remember(q: Request, ghost d: EngineDecision, r: Response, up: bool)
      requires Valid() && EngineEvaluate(settings, q.features, q.override) == Ok(d) && r == Materialize(settings, q, d)
      modifies cache
      ensures Valid()
      ensures cache.Current() == AfterRemember(Deployed(), old(cache.Current()), q, r, up)
    {
      hide Materialize, EngineEvaluate;
      if settings.cacheEnabled {
        var k := key(q.features, q.override);
        FreshIsSane(settings, key, q, d);
        SetKeepsCoherent(settings, key, cache.cfg, cache.Current(), k, r, up);
        hide Sane, Coherent, KeysDecide;
        cache.Set(k, r, up);
      }
    }
  }

  lemma EarlyStep(d: Deployment, c: Tiers<Response>, items: seq<Request>, up: nat -> bool, i: nat)
    requires i < |items|
    ensures var q, before, early := items[i], AfterRecalls(d, c, items, up, i), Early(d, c, items, up, i);
            && early == (match Problem(q)
                         case Some(message) => Some(ValidationResponse(q, message))
                         case None => Recalled(d, before, q, up(i)))
            && Pending(d, c, items, up, i + 1) == Pending(d, c, items, up, i) + (if early == None then [i] else [])
            && AfterRecalls(d, c, items, up, i + 1) ==
               if Problem(q).Some? then before else AfterRecall(d, before, q, up(i))
  {
    hide Recalled, AfterRecall, ValidationResponse, Problem;
  }

  lemma StoredStep(d: Deployment, c: Tiers<Response>, items: seq<Request>, positions: seq<nat>, up: nat -> bool, j: nat)
    requires forall k :: 0 <= k < |positions| ==> positions[k] < |items| && !items[positions[k]].override.MlOnly?
    ensures AfterRemembers(d, c, items, [], up) == c
    ensures j < |positions| ==>
              AfterRemembers(d, c, items, positions[..j + 1], up) ==
              AfterRemember(d, AfterRemembers(d, c, items, positions[..j], up), items[positions[j]],
                            Decision(d.settings, items[positions[j]]), up(j))
  {
    hide AfterRemember, Decision;
    if j < |positions| {
      assert Init(positions[..j + 1]) == positions[..j];
    }
  }

  lemma {:induction false} PendingMember(d: Deployment, c: Tiers<Response>, items: seq<Request>, up: nat -> bool,
                                         n: nat, i: nat)
    requires n <= |items|
    ensures i in Pending(d, c, items, up, n) <==> i < n && Early(d, c, items, up, i) == None
  {
    if n > 0 {
      PendingMember(d, c, items, up, n - 1, i);
      hide Early;
    }
  }

  lemma PendingMembers(d: Deployment, c: Tiers<Response>, items: seq<Request>, up: nat -> bool)
    ensures var pending := Pending(d, c, items, up, |items|);
            && (forall i: nat :: i < |items| ==> (i in pending <==> Early(d, c, items, up, i) == None))
            && (forall j :: 0 <= j < |pending| ==> pending[j] < |items| && Problem(items[pending[j]]) == None)
  {
    hide Early, Problem, Pending;
    var pending := Pending(d, c, items, up, |items|);
    forall i: nat | i < |items|
      ensures i in pending <==> Early(d, c, items, up, i) == None
    {
      PendingMember(d, c, items, up, |items|, i);
    }
    forall j | 0 <= j < |pending|
      ensures pending[j] < |items| && Problem(items[pending[j]]) == None
    {
      PendingMember(d, c, items, up, |items|, pending[j]);
      EarlyNone(d, c, items, up, pending[j]);
    }
  }

  lemma EarlyNone(d: Deployment, c: Tiers<Response>, items: seq<Request>, up: nat -> bool, i: nat)
    requires i < |items|
    ensures Early(d, c, items, up, i) == None ==> Problem(items[i]) == None
  {
    hide Problem, Recalled, AfterRecalls;
  }

  /** Slots filled so far: each as it was, or with the decision for its item. */
  ghost predicate Filling(s: Settings, items: seq<Request>, slots: seq<Option<Response>>,
                          filled: seq<Option<Response>>) {
    && |slots| == |filled| == |items|
    && (forall i :: 0 <= i < |items| && slots[i].Some? ==> filled[i] == slots[i])
    && (forall i :: 0 <= i < |items| && slots[i] == None && filled[i].Some? ==>
          !items[i].override.MlOnly? && filled[i].value == Decision(s, items[i]))
  }

  lemma FillingStarts(s: Settings, items: seq<Request>, slots: seq<Option<Response>>)
    requires |slots| == |items|
    ensures Filling(s, items, slots, slots)
  {
  }

  lemma FillOne(s: Settings, items: seq<Request>, slots: seq<Option<Response>>, filled: seq<Option<Response>>, i: nat)
    requires Filling(s, items, slots, filled) && i < |items| && slots[i] == None && !items[i].override.MlOnly?
    ensures Filling(s, items, slots, filled[i := Some(Decision(s, items[i]))])
  {
    hide Decision;
  }

  lemma FillingEnds(s: Settings, items: seq<Request>, slots: seq<Option<Response>>, filled: seq<Option<Response>>,
                    pending: seq<nat>)
    requires Filling(s, items, slots, filled)
    requires forall j :: 0 <= j < |pending| ==> pending[j] < |items| && filled[pending[j]].Some?
    requires forall i :: 0 <= i < |items| && slots[i] == None ==> i in pending
    ensures forall i :: 0 <= i < |items| ==>
              && filled[i].Some?
              && if slots[i].Some? then filled[i] == slots[i]
                 else !items[i].override.MlOnly? && filled[i].value == Decision(s, items[i])
  {
    hide Decision;
  }

  lemma PendingDecided(s: Settings, items: seq<Request>, pending: seq<nat>, outcomes: seq<EngineDecision>)
    requires |outcomes| == |pending| && forall j :: 0 <= j < |pending| ==> pending[j] < |items|
    requires forall j :: 0 <= j < |pending| ==>
               var q := items[pending[j]]; Ok(outcomes[j]) == EngineEvaluate(s, q.features, q.override)
    ensures forall j :: 0 <= j < |pending| ==>
              var q := items[pending[j]];
              !q.override.MlOnly? && Materialize(s, q, outcomes[j]) == Decision(s, q)
  {
    hide Materialize, Evaluation;
  }

  lemma OnlyMlFails(s: Settings, f: FeatureVector, override: Override)
    ensures EngineEvaluate(s, f, override).Err? <==> override.MlOnly?
    ensures override.MlOnly? ==> EngineEvaluate(s, f, override) == Err(UnsupportedStrategy)
  {
    hide Evaluation;
  }

  lemma OnlyMlIsRefused(s: Settings, q: Request)
    requires Problem(q) == None
    ensures EngineEvaluate(s, q.features, q.override).Err? <==> Refused(q)
    ensures Refused(q) ==> EngineEvaluate(s, q.features, q.override) == Err(UnsupportedStrategy)
  {
    hide Evaluation;
  }

  // ---------------------------------------------------------------- what an answer says

  /** Exactly which requests are valid, and what the first complaint about the others is. */
  lemma ProblemExactly(q: Request)
    ensures Problem(q) ==
            if q.unitPrice.Some? && q.unitPrice.value < 0.0 then Some("unit_price must be non-negative")
            else if q.quantity.Some? && q.quantity.value <= 0 then Some("quantity must be >= 1")
            else if q.budget.Some? && q.budget.value < 0.0 then Some("budget must be non-negative")
            else None
  {
  }

  /**
   * What every answer to a valid request says, cached or not, alone or in a batch: the candidates of the
   * rules, cut to the configured length; the first of them as the action; and whether a human is asked, which
   * is exactly when the risk or the amount is too high, or the action asks for it.
   */
  lemma AnswerTells(s: Settings, q: Request, r: Response)
    requires Problem(q) == None && !q.override.MlOnly? && Answers(s, q, r) && FALLBACK_ACTION in s.catalog
    ensures var f, cs := q.features, Candidates(s.rules, q.features, s.catalog);
            && r.candidates == (if |cs| <= 1 + MaxInt(0, s.topK) then cs else cs[..1 + MaxInt(0, s.topK)])
            && r.action == Top(s.rules, f, s.catalog) && r.confidence == cs[0].value
            && (r.confident <==> r.confidence >= s.confidentThreshold)
            && r.riskScore == Round4(Min(1.0, TotalRisk(Matching(s.rules, f))))
            && (r.requiresReview <==>
                  || r.riskScore >= s.riskReviewThreshold
                  || (f.totalAmount > 0.0 && f.totalAmount >= s.requireHumanReviewAbove)
                  || r.action == "escalate_to_human"
                  || (r.action == "approve_purchase" && f.totalAmount > s.maxAutoApproveAmount))
            && r.strategy == if q.override.EnsembleOnly? then "ensemble" else "rules"
  {
    var d := EngineEvaluate(s, q.features, q.override).value;
    assert VerdictOf(r) == VerdictOf(Materialize(s, q, d));
    ResponseShowsTheRanking(s, q, d);
    EvaluationOfMatches(s.rules, q.features, s.catalog, "");
    Round4Unit(Min(1.0, TotalRisk(Matching(s.rules, q.features))));
    var risk := d.outcome.riskScore;
    assert risk == Round4(Min(1.0, TotalRisk(Matching(s.rules, q.features)))) && Round4(risk) == risk;
    hide Candidates, Evaluation, Round4, Listed, Matching, TotalRisk, Scores;
  }

  /** So what is approved without a human is within every limit. */
  lemma ApprovalsAreWithinLimits(s: Settings, q: Request, r: Response)
    requires Problem(q) == None && !q.override.MlOnly? && Answers(s, q, r) && FALLBACK_ACTION in s.catalog
    requires r.action == "approve_purchase" && !r.requiresReview
    ensures q.features.totalAmount <= s.maxAutoApproveAmount
    ensures q.features.totalAmount > 0.0 ==> q.features.totalAmount < s.requireHumanReviewAbove
    ensures r.riskScore < s.riskReviewThreshold
  {
    AnswerTells(s, q, r);
    hide Answers, Candidates, Matching, TotalRisk;
  }

  /** What an invalid item of a batch is told. */
  lemma InvalidItemTells(s: Settings, q: Request, r: Response)
    requires Problem(q).Some? && Answers(s, q, r)
    ensures r.action == "no_action" && r.confidence == 0.0 && !r.confident && r.riskScore == 0.0 && !r.requiresReview
    ensures r.candidates == [Entry("no_action", 0.0)] && r.strategy == "validation-error" && !r.cached
    ensures r.validationError == Problem(q) && r.requestId == q.requestId && r.sessionId == q.sessionId
  {
  }
}
