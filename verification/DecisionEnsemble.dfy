/**
 * The ensemble strategy (decision/strategies/ensemble.py): a weighted blend of the rule outcome and
 * the ML outcome, re-normalised so that the best action scores 1.
 */
module DecisionEnsemble {
  import opened Basics
  import opened OrderedDicts
  import opened DecisionRules

  /** The two weights, as the constructor clips them, and the threshold below which ML counts a third. */
  datatype Weights = Weights(rules: real, ml: real, lowConfidence: real)

  /** What the constructor insists on. */
  predicate Sound(w: Weights) {
    w.rules >= 0.0 && w.ml >= 0.0 && w.rules + w.ml > 0.0
  }

  function MlWeight(w: Weights, low: bool): real {
    w.ml * (if low then 0.33 else 1.0)
  }

  function Share(weight: real, confidence: real): real {
    weight * confidence
  }

  /** `scores[a] = scores.get(a, 0.0) + weight * conf` for every candidate in turn. */
  function AddWeighted(scores: Dict<real>, candidates: Dict<real>, weight: real): Dict<real>
    decreases candidates
  {
    if candidates == [] then scores
    else
      var c := candidates[0];
      AddWeighted(Assign(scores, c.key, ScoreOf(scores, c.key) + Share(weight, c.value)), candidates[1..], weight)
  }

  function Blended(rules: Dict<real>, ml: Dict<real>, wRules: real, wMl: real): Dict<real> {
    OrFallback(AddWeighted(AddWeighted([], rules, wRules), ml, wMl))
  }

  /** Scale every score by the largest, cap and round. */
  function Rescale(d: Dict<real>, top: real): Dict<real> {
    if d == [] then [] else [Entry(d[0].key, Scaled(d[0].value, top))] + Rescale(d[1..], top)
  }

  /** `top or 1.0` */
  function NonZero(top: real): (t: real)
    ensures t != 0.0
  {
    if top == 0.0 then 1.0 else top
  }

  /** A score as a confidence, relative to the largest. */
  function Scaled(score: real, top: real): real {
    Confidence(score / NonZero(top))
  }

  function BlendCandidates(rules: Dict<real>, ml: Dict<real>, wRules: real, wMl: real): Dict<real> {
    var ordered := SortDesc(Blended(rules, ml, wRules, wMl));
    if ordered == [] then [] else Rescale(ordered, ordered[0].value)
  }

  /** The weighted average of the two risks, guarded against a vanishing divisor. */
  function AverageRisk(r1: real, r2: real, w1: real, w2: real): real {
    (r1 * w1 + r2 * w2) / Max(0.000001, w1 + w2)
  }

  function BlendRisk(rules: real, ml: real, wRules: real, wMl: real, low: bool): real {
    var risk := AverageRisk(rules, ml, wRules, wMl);
    Round4(if low then Min(1.0, risk + 0.05) else risk)
  }

  function Blend(w: Weights, rules: StrategyOutcome, ml: StrategyOutcome, low: bool): StrategyOutcome {
    StrategyOutcome(BlendCandidates(rules.candidates, ml.candidates, w.rules, MlWeight(w, low)),
                    BlendRisk(rules.riskScore, ml.riskScore, w.rules, MlWeight(w, low), low),
                    if low then "ensemble:rules_dominant" else "ensemble:blended", rules.matched, None)
  }

  function TagOnlyRules(rules: StrategyOutcome, reason: string): StrategyOutcome {
    rules.(strategy := "ensemble:rules", mlFallback := Some(reason))
  }

  function TopConfidence(o: StrategyOutcome): real {
    if o.candidates == [] then 0.0 else o.candidates[0].value
  }

  /** What becomes of the ML strategy: not configured, failed with a reason, or an outcome. */
  datatype MlResult = NotConfigured | MlFailed(reason: string) | MlOutcome(outcome: StrategyOutcome)

  function Ensemble(w: Weights, rules: StrategyOutcome, ml: MlResult): StrategyOutcome {
    match ml
    case NotConfigured => TagOnlyRules(rules, "ml_not_configured")
    case MlFailed(reason) => TagOnlyRules(rules, reason)
    case MlOutcome(o) => Blend(w, rules, o, TopConfidence(o) < w.lowConfidence)
  }

  /** The blending loops of `_blend`. */
  method BlendScores(rules: Dict<real>, ml: Dict<real>, wRules: real, wMl: real) returns (scores: Dict<real>)
    ensures scores == Blended(rules, ml, wRules, wMl)
  {
    hide Assign, Share;
    scores := [];
    var i := 0;
    while i < |rules|
      invariant i <= |rules|
      invariant AddWeighted(scores, rules[i..], wRules) == AddWeighted([], rules, wRules)
    {
      assert rules[i..][1..] == rules[i + 1..];
      scores := Assign(scores, rules[i].key, ScoreOf(scores, rules[i].key) + Share(wRules, rules[i].value));
      i := i + 1;
    }
    ghost var half := scores;
    i := 0;
    while i < |ml|
      invariant i <= |ml|
      invariant AddWeighted(scores, ml[i..], wMl) == AddWeighted(half, ml, wMl)
    {
      assert ml[i..][1..] == ml[i + 1..];
      scores := Assign(scores, ml[i].key, ScoreOf(scores, ml[i].key) + Share(wMl, ml[i].value));
      i := i + 1;
    }
    if scores == [] {
      scores := [Entry(FALLBACK_ACTION, 0.0)];
    }
  }

  /** `evaluate`, once the two strategies have answered. */
  method Evaluate(w: Weights, rules: StrategyOutcome, ml: MlResult) returns (outcome: StrategyOutcome)
    ensures outcome == Ensemble(w, rules, ml)
  {
    hide SortDesc, Rescale, AverageRisk, Round4, Blended;
    match ml {
      case NotConfigured =>
        return TagOnlyRules(rules, "ml_not_configured");
      case MlFailed(reason) =>
        return TagOnlyRules(rules, reason);
      case MlOutcome(o) =>
        var low := TopConfidence(o) < w.lowConfidence;
        var wMl := w.ml * (if low then 0.33 else 1.0);
        var scores := BlendScores(rules.candidates, o.candidates, w.rules, wMl);
        var ordered := SortDesc(scores);
        var normalised := if ordered == [] then [] else Rescale(ordered, ordered[0].value);
        var risk := AverageRisk(rules.riskScore, o.riskScore, w.rules, wMl);
        if low {
          risk := Min(1.0, risk + 0.05);
        }
        return StrategyOutcome(normalised, Round4(risk),
                               if low then "ensemble:rules_dominant" else "ensemble:blended", rules.matched, None);
    }
  }

  /** The ML strategy on a whole batch: it fails for all items or answers them in order. */
  datatype MlBatch = NoMl | BatchFailed(reason: string) | BatchOutcomes(outcomes: seq<StrategyOutcome>)

  /** What the batch result says about item i. */
  function MlAt(ml: MlBatch, i: nat): MlResult
    requires ml.BatchOutcomes? ==> i < |ml.outcomes|
  {
    match ml
    case NoMl => NotConfigured
    case BatchFailed(reason) => MlFailed(reason)
    case BatchOutcomes(outcomes) => MlOutcome(outcomes[i])
  }

  /**
   * `evaluate_batch`, once the two strategies have answered: every item is blended as it would be alone.
   * Python's `zip` stops at the shorter list, so an ML strategy that answers too few items loses the rest.
   */
  method EvaluateBatch(w: Weights, rules: seq<StrategyOutcome>, ml: MlBatch) returns (out: seq<StrategyOutcome>)
    ensures |out| == if ml.BatchOutcomes? && |ml.outcomes| < |rules| then |ml.outcomes| else |rules|
    ensures forall i :: 0 <= i < |out| ==> out[i] == Ensemble(w, rules[i], MlAt(ml, i))
  {
    hide Blend, TagOnlyRules;
    var n := if ml.BatchOutcomes? then MinInt(|rules|, |ml.outcomes|) else |rules|;
    out := [];
    while |out| < n
      invariant |out| <= n
      invariant forall i :: 0 <= i < |out| ==> out[i] == Ensemble(w, rules[i], MlAt(ml, i))
      decreases n - |out|
    {
      var one := Evaluate(w, rules[|out|], MlAt(ml, |out|));
      out := out + [one];
    }
  }

  // ---------------------------------------------------------------- what the blend means

  lemma HeadOrRest(d: Dict<real>, action: string)
    requires d != [] && Distinct(d)
    ensures Find(d, action) == if action == d[0].key then Some(d[0].value) else Find(d[1..], action)
    ensures Find(d[1..], d[0].key) == None && Distinct(d[1..])
  {
    HeadIsUnique(d);
  }

  lemma ShareMonotone(weight: real, x: real, y: real)
    requires weight >= 0.0 && x <= y
    ensures Share(weight, x) <= Share(weight, y)
  {
    assert weight * (y - x) >= 0.0;
  }

  lemma ShareOfNothing(weight: real)
    ensures Share(weight, 0.0) == 0.0
  {
  }

  lemma {:induction false} AddWeightedMeans(scores: Dict<real>, candidates: Dict<real>, weight: real, action: string)
    requires Distinct(scores) && Distinct(candidates)
    ensures Distinct(AddWeighted(scores, candidates, weight))
    ensures ScoreOf(AddWeighted(scores, candidates, weight), action) ==
            ScoreOf(scores, action) + Share(weight, ScoreOf(candidates, action))
    ensures Find(AddWeighted(scores, candidates, weight), action).Some? <==>
            Find(scores, action).Some? || Find(candidates, action).Some?
    decreases candidates
  {
    if candidates != [] {
      hide Share, Assign, Find, Distinct;
      var c := candidates[0];
      var v := ScoreOf(scores, c.key) + Share(weight, c.value);
      assert Distinct(Assign(scores, c.key, v)) by { AssignDistinct(scores, c.key, v); }
      FindAssign(scores, c.key, v, action);
      HeadOrRest(candidates, action);
      ShareOfNothing(weight);
      AddWeightedMeans(Assign(scores, c.key, v), candidates[1..], weight, action);
    } else {
      assert Share(weight, ScoreOf(candidates, action)) == 0.0;
    }
  }

  /** The blend of an action is the weighted sum of its two confidences, an absent one counting as zero. */
  lemma BlendedMeans(rules: Dict<real>, ml: Dict<real>, wRules: real, wMl: real, action: string)
    requires Distinct(rules) && Distinct(ml)
    ensures Distinct(Blended(rules, ml, wRules, wMl)) && Blended(rules, ml, wRules, wMl) != []
    ensures ScoreOf(Blended(rules, ml, wRules, wMl), action) ==
            Share(wRules, ScoreOf(rules, action)) + Share(wMl, ScoreOf(ml, action))
    ensures Find(Blended(rules, ml, wRules, wMl), action).Some? <==>
            Find(rules, action).Some? || Find(ml, action).Some? ||
            (rules == [] && ml == [] && action == FALLBACK_ACTION)
  {
    hide Assign, AddWeighted;
    AddWeightedMeans([], rules, wRules, action);
    AddWeightedMeans(AddWeighted([], rules, wRules), ml, wMl, action);
    BlendedEmpty(rules, ml, wRules, wMl);
    if rules == [] && ml == [] {
      assert [Entry(FALLBACK_ACTION, 0.0)][1..] == [];
      assert Share(wRules, 0.0) + Share(wMl, 0.0) == 0.0;
    }
  }

  lemma {:induction false} AddWeightedKeeps(scores: Dict<real>, candidates: Dict<real>, weight: real)
    ensures AddWeighted(scores, candidates, weight) == [] <==> scores == [] && candidates == []
    decreases candidates
  {
    if candidates != [] {
      hide Share;
      var c := candidates[0];
      AddWeightedKeeps(Assign(scores, c.key, ScoreOf(scores, c.key) + Share(weight, c.value)), candidates[1..], weight);
    }
  }

  lemma BlendedEmpty(rules: Dict<real>, ml: Dict<real>, wRules: real, wMl: real)
    ensures AddWeighted(AddWeighted([], rules, wRules), ml, wMl) == [] <==> rules == [] && ml == []
  {
    AddWeightedKeeps([], rules, wRules);
    AddWeightedKeeps(AddWeighted([], rules, wRules), ml, wMl);
  }

  ghost predicate NotNegative(d: Dict<real>) {
    forall e :: e in d ==> e.value >= 0.0
  }

  lemma ScoreNotNegative(d: Dict<real>, action: string)
    requires NotNegative(d)
    ensures ScoreOf(d, action) >= 0.0
  {
    FindMember(d, action);
  }

  lemma {:induction false} RescaleFinds(d: Dict<real>, top: real, action: string)
    ensures Find(Rescale(d, top), action) ==
            match Find(d, action) case None => None case Some(v) => Some(Scaled(v, top))
    ensures |Rescale(d, top)| == |d|
    ensures forall i :: 0 <= i < |d| ==> Rescale(d, top)[i] == Entry(d[i].key, Scaled(d[i].value, top))
  {
    if d != [] {
      hide Scaled;
      RescaleFinds(d[1..], top, action);
      assert Rescale(d, top)[1..] == Rescale(d[1..], top);
    }
  }

  /** Scaling by a top that is not negative keeps order and range, and takes the top itself to 1. */
  lemma ScaledConfidence(top: real, x: real, y: real)
    requires 0.0 <= x <= y <= top
    ensures 0.0 <= Scaled(x, top) <= Scaled(y, top) <= 1.0
    ensures top > 0.0 ==> Scaled(top, top) == 1.0
    ensures Scaled(0.0, top) == 0.0
  {
    var t := NonZero(top);
    hide Round4;
    QuotientsInUnit(t, x, y);
    Round4Unit(x / t);
    Round4Unit(y / t);
    Round4Monotone(x / t, y / t);
  }

  lemma QuotientsInUnit(t: real, x: real, y: real)
    requires t > 0.0 && 0.0 <= x <= y <= t
    ensures 0.0 <= x / t <= y / t <= 1.0 && t / t == 1.0 && 0.0 / t == 0.0
  {
    QuotientMonotone(0.0, x, t);
    QuotientMonotone(x, y, t);
    QuotientMonotone(y, t, t);
  }

  lemma QuotientMonotone(x: real, y: real, t: real)
    requires t > 0.0 && x <= y
    ensures x / t <= y / t && t / t == 1.0 && 0.0 / t == 0.0
  {
    assert (y - x) / t >= 0.0;
    assert y / t == x / t + (y - x) / t;
  }

  /** The largest blended score, by which the others are scaled. */
  function TopScore(rules: Dict<real>, ml: Dict<real>, wRules: real, wMl: real): real
    requires SortDesc(Blended(rules, ml, wRules, wMl)) != []
  {
    SortDesc(Blended(rules, ml, wRules, wMl))[0].value
  }

  /** Every blended score lies between zero and the top, and the top is the first of the ranking. */
  lemma BlendRanking(rules: Dict<real>, ml: Dict<real>, wRules: real, wMl: real, action: string)
    requires Distinct(rules) && Distinct(ml) && NotNegative(rules) && NotNegative(ml) && wRules >= 0.0 && wMl >= 0.0
    ensures var ordered := SortDesc(Blended(rules, ml, wRules, wMl));
            && ordered != [] && Distinct(ordered) && NonIncreasing(ordered)
            && Find(ordered, action) == Find(Blended(rules, ml, wRules, wMl), action)
            && 0.0 <= ScoreOf(ordered, action) <= ordered[0].value
  {
    hide Share, SortDesc, Blended;
    BlendedMeans(rules, ml, wRules, wMl, action);
    SortDescSorts(Blended(rules, ml, wRules, wMl));
    EmptyByFind(SortDesc(Blended(rules, ml, wRules, wMl)), Blended(rules, ml, wRules, wMl));
    ScoreNotNegative(rules, action);
    ScoreNotNegative(ml, action);
    ShareMonotone(wRules, 0.0, ScoreOf(rules, action));
    ShareMonotone(wMl, 0.0, ScoreOf(ml, action));
    ShareOfNothing(wRules);
    ShareOfNothing(wMl);
    var ordered := SortDesc(Blended(rules, ml, wRules, wMl));
    FindMember(ordered, action);
    TopNotNegative(rules, ml, wRules, wMl, ordered);
  }

  lemma TopNotNegative(rules: Dict<real>, ml: Dict<real>, wRules: real, wMl: real, ordered: Dict<real>)
    requires Distinct(rules) && Distinct(ml) && NotNegative(rules) && NotNegative(ml) && wRules >= 0.0 && wMl >= 0.0
    requires ordered != [] && Find(ordered, ordered[0].key) == Find(Blended(rules, ml, wRules, wMl), ordered[0].key)
    ensures ordered[0].value >= 0.0
  {
    var key := ordered[0].key;
    assert Find(ordered, key) == Some(ordered[0].value);
    hide Share, Blended;
    BlendedMeans(rules, ml, wRules, wMl, key);
    ScoreNotNegative(rules, key);
    ScoreNotNegative(ml, key);
    ShareMonotone(wRules, 0.0, ScoreOf(rules, key));
    ShareMonotone(wMl, 0.0, ScoreOf(ml, key));
    ShareOfNothing(wRules);
    ShareOfNothing(wMl);
  }

  /** The confidence the blend gives an action; an action it does not list has none. */
  lemma BlendConfidence(rules: Dict<real>, ml: Dict<real>, wRules: real, wMl: real, action: string)
    requires Distinct(rules) && Distinct(ml) && NotNegative(rules) && NotNegative(ml) && wRules >= 0.0 && wMl >= 0.0
    ensures SortDesc(Blended(rules, ml, wRules, wMl)) != []
    ensures ScoreOf(BlendCandidates(rules, ml, wRules, wMl), action) ==
            Scaled(Share(wRules, ScoreOf(rules, action)) + Share(wMl, ScoreOf(ml, action)),
                   TopScore(rules, ml, wRules, wMl))
    ensures 0.0 <= Share(wRules, ScoreOf(rules, action)) + Share(wMl, ScoreOf(ml, action))
                <= TopScore(rules, ml, wRules, wMl)
  {
    hide Share, SortDesc, Blended, Scaled, Rescale;
    BlendRanking(rules, ml, wRules, wMl, action);
    BlendedMeans(rules, ml, wRules, wMl, action);
    var top := TopScore(rules, ml, wRules, wMl);
    RescaleFinds(SortDesc(Blended(rules, ml, wRules, wMl)), top, action);
    ScaledConfidence(top, 0.0, 0.0);
  }

  /**
   * The blend respects unanimity: if both strategies give `a` at least the confidence they give `b`,
   * the absent counting as zero, so does the blend, with any weights that are not negative.
   */
  lemma BlendRespectsUnanimity(rules: Dict<real>, ml: Dict<real>, wRules: real, wMl: real, a: string, b: string)
    requires Distinct(rules) && Distinct(ml) && NotNegative(rules) && NotNegative(ml) && wRules >= 0.0 && wMl >= 0.0
    requires ScoreOf(rules, a) >= ScoreOf(rules, b) && ScoreOf(ml, a) >= ScoreOf(ml, b)
    ensures ScoreOf(BlendCandidates(rules, ml, wRules, wMl), a) >= ScoreOf(BlendCandidates(rules, ml, wRules, wMl), b)
  {
    hide Share, SortDesc, Blended, Scaled, BlendCandidates, TopScore;
    BlendConfidence(rules, ml, wRules, wMl, a);
    BlendConfidence(rules, ml, wRules, wMl, b);
    ShareMonotone(wRules, ScoreOf(rules, b), ScoreOf(rules, a));
    ShareMonotone(wMl, ScoreOf(ml, b), ScoreOf(ml, a));
    ScaledConfidence(TopScore(rules, ml, wRules, wMl),
                     Share(wRules, ScoreOf(rules, b)) + Share(wMl, ScoreOf(ml, b)),
                     Share(wRules, ScoreOf(rules, a)) + Share(wMl, ScoreOf(ml, a)));
  }

  /** Blended confidences lie in [0, 1] and never rise; the first is exactly 1 if any weighted vote is positive. */
  lemma BlendIsNormalised(rules: Dict<real>, ml: Dict<real>, wRules: real, wMl: real)
    requires Distinct(rules) && Distinct(ml) && NotNegative(rules) && NotNegative(ml) && wRules >= 0.0 && wMl >= 0.0
    ensures var cs := BlendCandidates(rules, ml, wRules, wMl);
            && cs != [] && NonIncreasing(cs)
            && (forall i :: 0 <= i < |cs| ==> 0.0 <= cs[i].value <= 1.0)
            && (cs[0].value == 1.0 <==>
                  exists action :: Share(wRules, ScoreOf(rules, action)) + Share(wMl, ScoreOf(ml, action)) > 0.0)
  {
    hide Share, SortDesc, Blended, Scaled, Rescale;
    BlendRanking(rules, ml, wRules, wMl, FALLBACK_ACTION);
    var ordered := SortDesc(Blended(rules, ml, wRules, wMl));
    var top := ordered[0].value;
    RescaleFinds(ordered, top, FALLBACK_ACTION);
    forall i, j | 0 <= i <= j < |ordered|
      ensures 0.0 <= Scaled(ordered[j].value, top) <= Scaled(ordered[i].value, top) <= 1.0
    {
      RankedScore(rules, ml, wRules, wMl, ordered, i);
      RankedScore(rules, ml, wRules, wMl, ordered, j);
      ScaledConfidence(top, ordered[j].value, ordered[i].value);
    }
    RankedScore(rules, ml, wRules, wMl, ordered, 0);
    ScaledConfidence(top, 0.0, top);
    forall action | Share(wRules, ScoreOf(rules, action)) + Share(wMl, ScoreOf(ml, action)) > 0.0
      ensures top > 0.0
    {
      BlendConfidence(rules, ml, wRules, wMl, action);
    }
  }

  lemma RankedScore(rules: Dict<real>, ml: Dict<real>, wRules: real, wMl: real, ordered: Dict<real>, i: nat)
    requires Distinct(rules) && Distinct(ml) && NotNegative(rules) && NotNegative(ml) && wRules >= 0.0 && wMl >= 0.0
    requires ordered == SortDesc(Blended(rules, ml, wRules, wMl)) && i < |ordered|
    ensures ordered[i].value ==
            Share(wRules, ScoreOf(rules, ordered[i].key)) + Share(wMl, ScoreOf(ml, ordered[i].key))
    ensures 0.0 <= ordered[i].value
  {
    hide Share, SortDesc, Blended;
    BlendRanking(rules, ml, wRules, wMl, ordered[i].key);
    BlendedMeans(rules, ml, wRules, wMl, ordered[i].key);
    FindUnique(ordered, ordered[i]);
  }

  // ---------------------------------------------------------------- risk

  /** The average risk lies between the two risks. */
  ghost predicate AveragesRisk(w1: real, w2: real) {
    forall r1: real, r2: real :: 0.0 <= r1 && 0.0 <= r2 ==>
      Min(r1, r2) <= AverageRisk(r1, r2, w1, w2) <= Max(r1, r2)
  }

  lemma AverageBetween(r1: real, r2: real, w1: real, w2: real)
    requires w1 >= 0.0 && w2 >= 0.0 && w1 + w2 > 0.0
    ensures Min(r1, r2) <= (r1 * w1 + r2 * w2) / (w1 + w2) <= Max(r1, r2)
  {
    var lo, hi, w := Min(r1, r2), Max(r1, r2), w1 + w2;
    assert (r1 - lo) * w1 >= 0.0 && (r2 - lo) * w2 >= 0.0;
    assert (hi - r1) * w1 >= 0.0 && (hi - r2) * w2 >= 0.0;
    var sum := r1 * w1 + r2 * w2;
    assert lo * w <= sum <= hi * w;
    QuotientBetween(sum, w, lo, hi);
  }

  lemma QuotientBetween(sum: real, w: real, lo: real, hi: real)
    requires w > 0.0 && lo * w <= sum <= hi * w
    ensures lo <= sum / w <= hi
  {
    QuotientMonotone(lo * w, sum, w);
    QuotientMonotone(sum, hi * w, w);
    assert (lo * w) / w == lo && (hi * w) / w == hi;
  }

  /**
   * The blended risk, before penalty and rounding, is an average of the two risks exactly when the
   * weights sum to at least the guard of the division; the constructor only asks that the sum be positive.
   */
  lemma RiskIsAverageExactly(w1: real, w2: real)
    requires w1 >= 0.0 && w2 >= 0.0
    ensures AveragesRisk(w1, w2) <==> w1 + w2 >= 0.000001
  {
    if w1 + w2 >= 0.000001 {
      forall r1: real, r2: real | 0.0 <= r1 && 0.0 <= r2
        ensures Min(r1, r2) <= AverageRisk(r1, r2, w1, w2) <= Max(r1, r2)
      {
        AverageBetween(r1, r2, w1, w2);
      }
    } else {
      assert AverageRisk(1.0, 1.0, w1, w2) == (w1 + w2) / 0.000001;
      assert AverageRisk(1.0, 1.0, w1, w2) < Min(1.0, 1.0);
    }
  }

  // ---------------------------------------------------------------- the strategy as configured

  /** What both strategies produce: distinct actions with confidences that are not negative. */
  ghost predicate Proper(o: StrategyOutcome) {
    Distinct(o.candidates) && NotNegative(o.candidates)
  }

  lemma SoundWeights(w: Weights, low: bool)
    requires Sound(w)
    ensures MlWeight(w, low) >= 0.0
  {
  }

  /**
   * With the weights the constructor accepts, the ensemble respects unanimity, whether the ML strategy is
   * sure or not.
   */
  lemma EnsembleRespectsUnanimity(w: Weights, rules: StrategyOutcome, ml: StrategyOutcome,
                                                     a: string, b: string)
    requires Sound(w) && Proper(rules) && Proper(ml)
    requires ScoreOf(rules.candidates, a) >= ScoreOf(rules.candidates, b)
    requires ScoreOf(ml.candidates, a) >= ScoreOf(ml.candidates, b)
    ensures var out := Ensemble(w, rules, MlOutcome(ml));
            ScoreOf(out.candidates, a) >= ScoreOf(out.candidates, b)
  {
    var low := TopConfidence(ml) < w.lowConfidence;
    SoundWeights(w, low);
    hide MlWeight, BlendCandidates, BlendRisk, ScoreOf, Distinct, NotNegative;
    BlendRespectsUnanimity(rules.candidates, ml.candidates, w.rules, MlWeight(w, low), a, b);
  }

  /** A strategy that counts and is confident of something. */
  ghost predicate SaysSomething(weight: real, o: StrategyOutcome) {
    weight > 0.0 && exists e :: e in o.candidates && e.value > 0.0
  }

  /**
   * Its confidences lie in [0, 1] and never rise, and the first is exactly 1 if and only if a strategy
   * with a positive weight has a positive confidence.
   */
  lemma EnsembleIsNormalised(w: Weights, rules: StrategyOutcome, ml: StrategyOutcome)
    requires Sound(w) && Proper(rules) && Proper(ml)
    ensures var cs := Ensemble(w, rules, MlOutcome(ml)).candidates;
            && cs != [] && NonIncreasing(cs)
            && (forall i :: 0 <= i < |cs| ==> 0.0 <= cs[i].value <= 1.0)
            && (cs[0].value == 1.0 <==> SaysSomething(w.rules, rules) || SaysSomething(w.ml, ml))
  {
    var low := TopConfidence(ml) < w.lowConfidence;
    SoundWeights(w, low);
    var wMl := MlWeight(w, low);
    assert wMl > 0.0 <==> w.ml > 0.0;
    hide MlWeight, BlendCandidates, BlendRisk, NonIncreasing, Share, ScoreOf;
    BlendIsNormalised(rules.candidates, ml.candidates, w.rules, wMl);
    forall e | e in rules.candidates + ml.candidates
      ensures Share(w.rules, ScoreOf(rules.candidates, e.key)) >= 0.0
      ensures Share(wMl, ScoreOf(ml.candidates, e.key)) >= 0.0
    {
      SharesNotNegative(rules.candidates, ml.candidates, w.rules, wMl, e.key);
    }
    ShareSpeaks(w.rules, rules);
    ShareSpeaks(wMl, ml);
  }

  /** A positive share is a positive confidence with a positive weight. */
  lemma ShareSpeaks(weight: real, o: StrategyOutcome)
    requires Proper(o) && weight >= 0.0
    ensures SaysSomething(weight, o) ==>
              exists e :: e in o.candidates && Share(weight, ScoreOf(o.candidates, e.key)) > 0.0
    ensures forall action :: Share(weight, ScoreOf(o.candidates, action)) > 0.0 ==> SaysSomething(weight, o)
  {
    if SaysSomething(weight, o) {
      var e :| e in o.candidates && e.value > 0.0;
      FindUnique(o.candidates, e);
      PositiveShare(weight, e.value);
    }
    forall action | Share(weight, ScoreOf(o.candidates, action)) > 0.0
      ensures SaysSomething(weight, o)
    {
      ScoreNotNegative(o.candidates, action);
      FindMember(o.candidates, action);
      PositiveFactors(weight, ScoreOf(o.candidates, action));
    }
  }

  lemma PositiveShare(weight: real, confidence: real)
    requires weight > 0.0 && confidence > 0.0
    ensures Share(weight, confidence) > 0.0
  {
  }

  lemma PositiveFactors(weight: real, confidence: real)
    requires weight >= 0.0 && confidence >= 0.0 && Share(weight, confidence) > 0.0
    ensures weight > 0.0 && confidence > 0.0
  {
  }

  lemma SharesNotNegative(rules: Dict<real>, ml: Dict<real>, wRules: real, wMl: real, action: string)
    requires NotNegative(rules) && NotNegative(ml) && wRules >= 0.0 && wMl >= 0.0
    ensures Share(wRules, ScoreOf(rules, action)) >= 0.0 && Share(wMl, ScoreOf(ml, action)) >= 0.0
  {
    ScoreNotNegative(rules, action);
    ScoreNotNegative(ml, action);
    ShareOfNothing(wRules);
    ShareOfNothing(wMl);
    ShareMonotone(wRules, 0.0, ScoreOf(rules, action));
    ShareMonotone(wMl, 0.0, ScoreOf(ml, action));
  }

  /**
   * Its risk is the rounded average of the two, raised by the penalty when the ML strategy is unsure:
   * it lies between the two risks with the penalty added and the cap applied, as long as the weights in
   * force sum to the guard of the division.
   */
  lemma EnsembleRiskIsBetween(w: Weights, rules: StrategyOutcome, ml: StrategyOutcome)
    requires Sound(w) && 0.0 <= rules.riskScore <= 1.0 && 0.0 <= ml.riskScore <= 1.0
    requires w.rules + MlWeight(w, TopConfidence(ml) < w.lowConfidence) >= 0.000001
    ensures var out := Ensemble(w, rules, MlOutcome(ml));
            var penalty := if TopConfidence(ml) < w.lowConfidence then 0.05 else 0.0;
            && Round4(Min(1.0, Min(rules.riskScore, ml.riskScore) + penalty)) <= out.riskScore
            && out.riskScore <= Round4(Min(1.0, Max(rules.riskScore, ml.riskScore) + penalty))
            && 0.0 <= out.riskScore <= 1.0
  {
    var low := TopConfidence(ml) < w.lowConfidence;
    SoundWeights(w, low);
    hide MlWeight, BlendCandidates, Round4, AverageRisk;
    var r1, r2, wMl := rules.riskScore, ml.riskScore, MlWeight(w, low);
    RiskIsAverageExactly(w.rules, wMl);
    var risk := AverageRisk(r1, r2, w.rules, wMl);
    assert Min(r1, r2) <= risk <= Max(r1, r2);
    var penalty := if low then 0.05 else 0.0;
    Round4Monotone(Min(1.0, Min(r1, r2) + penalty), Min(1.0, risk + penalty));
    Round4Monotone(Min(1.0, risk + penalty), Min(1.0, Max(r1, r2) + penalty));
    Round4Unit(Min(1.0, risk + penalty));
  }

  // ---------------------------------------------------------------- in the terms of the configuration

  /** How much the ML strategy counts: a third if it is not confident enough of its best action. */
  function MlFactor(w: Weights, ml: StrategyOutcome): real {
    if (if ml.candidates == [] then 0.0 else ml.candidates[0].value) < w.lowConfidence then 0.33 else 1.0
  }

  /** The weighted sum of the confidences two strategies give an action. */
  function WeightedSum(w: Weights, rules: StrategyOutcome, ml: StrategyOutcome, action: string): real {
    w.rules * ScoreOf(rules.candidates, action) + MlFactor(w, ml) * w.ml * ScoreOf(ml.candidates, action)
  }

  lemma SharesAreSum(w: Weights, rules: StrategyOutcome, ml: StrategyOutcome, action: string)
    ensures var wMl := MlWeight(w, TopConfidence(ml) < w.lowConfidence);
            Share(w.rules, ScoreOf(rules.candidates, action)) + Share(wMl, ScoreOf(ml.candidates, action)) ==
            WeightedSum(w, rules, ml, action)
  {
    hide ScoreOf;
    var wMl := MlWeight(w, TopConfidence(ml) < w.lowConfidence);
    assert wMl == MlFactor(w, ml) * w.ml;
  }

  /** The blend ranks two actions by the weighted sums of their confidences, an unsure ML strategy counting a third. */
  lemma EnsembleFollowsSums(w: Weights, rules: StrategyOutcome, ml: StrategyOutcome, a: string, b: string)
    requires Sound(w) && Proper(rules) && Proper(ml)
    requires WeightedSum(w, rules, ml, a) >= WeightedSum(w, rules, ml, b)
    ensures var out := Ensemble(w, rules, MlOutcome(ml));
            ScoreOf(out.candidates, a) >= ScoreOf(out.candidates, b)
  {
    SharesAreSum(w, rules, ml, a);
    SharesAreSum(w, rules, ml, b);
    var low := TopConfidence(ml) < w.lowConfidence;
    SoundWeights(w, low);
    hide MlWeight, BlendCandidates, BlendRisk, ScoreOf, Distinct, NotNegative;
    hide Share, Scaled, TopScore, SortDesc, Blended, WeightedSum;
    var rs, ms, wMl := rules.candidates, ml.candidates, MlWeight(w, low);
    BlendConfidence(rs, ms, w.rules, wMl, a);
    BlendConfidence(rs, ms, w.rules, wMl, b);
    ScaledConfidence(TopScore(rs, ms, w.rules, wMl), WeightedSum(w, rules, ml, b), WeightedSum(w, rules, ml, a));
  }

  /** A blended confidence is the action's weighted sum relative to the best one's, to four digits. */
  lemma EnsembleConfidenceIsShare(w: Weights, rules: StrategyOutcome, ml: StrategyOutcome, a: string)
    requires Sound(w) && Proper(rules) && Proper(ml)
    ensures var cs := Ensemble(w, rules, MlOutcome(ml)).candidates;
            cs != [] &&
            var sum, top := WeightedSum(w, rules, ml, a), WeightedSum(w, rules, ml, cs[0].key);
            && 0.0 <= sum <= top
            && (top > 0.0 ==> sum / top - 0.00005 <= ScoreOf(cs, a) <= sum / top + 0.00005)
            && (top == 0.0 ==> ScoreOf(cs, a) == 0.0)
  {
    var low := TopConfidence(ml) < w.lowConfidence;
    SoundWeights(w, low);
    var rs, ms, wMl := rules.candidates, ml.candidates, MlWeight(w, low);
    var ordered := SortDesc(Blended(rs, ms, w.rules, wMl));
    BlendConfidence(rs, ms, w.rules, wMl, a);
    BlendRanking(rs, ms, w.rules, wMl, a);
    RankedScore(rs, ms, w.rules, wMl, ordered, 0);
    assert BlendCandidates(rs, ms, w.rules, wMl)[0].key == ordered[0].key;
    SharesAreSum(w, rules, ml, a);
    SharesAreSum(w, rules, ml, ordered[0].key);
    hide MlWeight, BlendCandidates, SortDesc, Blended, Scaled, ScoreOf, Distinct, NotNegative, Share, WeightedSum;
    ScaledIsShare(WeightedSum(w, rules, ml, a), ordered[0].value);
  }

  lemma ScaledIsShare(sum: real, top: real)
    requires 0.0 <= sum <= top
    ensures top > 0.0 ==> sum / top - 0.00005 <= Scaled(sum, top) <= sum / top + 0.00005
    ensures top == 0.0 ==> Scaled(sum, top) == 0.0
  {
    if top > 0.0 {
      QuotientsInUnit(top, sum, sum);
      Round4Close(sum / top);
    } else {
      Round4Unit(0.0);
    }
    hide Round4;
  }

  /** The risk is the weighted average of the two risks, raised for an unsure ML strategy, capped and rounded. */
  lemma EnsembleRiskExactly(w: Weights, rules: StrategyOutcome, ml: StrategyOutcome) returns (average: real)
    requires Sound(w) && w.rules + MlFactor(w, ml) * w.ml >= 0.000001
    requires 0.0 <= rules.riskScore <= 1.0 && 0.0 <= ml.riskScore <= 1.0
    ensures average * (w.rules + MlFactor(w, ml) * w.ml) ==
            rules.riskScore * w.rules + ml.riskScore * (MlFactor(w, ml) * w.ml)
    ensures Ensemble(w, rules, MlOutcome(ml)).riskScore ==
            Round4(if MlFactor(w, ml) < 1.0 then Min(1.0, average + 0.05) else average)
  {
    var low := TopConfidence(ml) < w.lowConfidence;
    var wMl := MlWeight(w, low);
    assert wMl == MlFactor(w, ml) * w.ml;
    average := AverageRisk(rules.riskScore, ml.riskScore, w.rules, wMl);
    hide MlWeight, BlendCandidates, Round4;
  }

  /** What else the outcome tells: which way it was made, and why the ML strategy had no part in it. */
  lemma EnsembleTells(w: Weights, rules: StrategyOutcome, ml: StrategyOutcome, reason: string)
    ensures Ensemble(w, rules, MlOutcome(ml)).strategy ==
            if MlFactor(w, ml) < 1.0 then "ensemble:rules_dominant" else "ensemble:blended"
    ensures Ensemble(w, rules, MlOutcome(ml)).mlFallback == None
    ensures var out := Ensemble(w, rules, MlFailed(reason));
            out.candidates == rules.candidates && out.riskScore == rules.riskScore
            && out.strategy == "ensemble:rules" && out.mlFallback == Some(reason)
    ensures var out := Ensemble(w, rules, NotConfigured);
            out.candidates == rules.candidates && out.riskScore == rules.riskScore
            && out.strategy == "ensemble:rules" && out.mlFallback == Some("ml_not_configured")
  {
    hide BlendCandidates, BlendRisk;
  }
}
