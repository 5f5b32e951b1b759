/**
 * The rule strategy of the decision engine (decision/strategies/rules.py): matching rules vote, votes
 * are summed per action, and the actions are ranked, capped, rounded and filtered by audience.
 *
 * Dictionaries are the ordered dictionaries of OrderedDicts: an action keeps the place of its first vote.
 */
module DecisionRules {
  import opened Basics
  import opened OrderedDicts

  const FALLBACK_ACTION := "no_action"

  /** What the strategies know about a request (decision/features.py); the user type is "b2b" or "b2c". */
  datatype FeatureVector = FeatureVector(
    intent: string,
    userType: string,
    urgency: string,
    language: string,
    intentConfidence: real,
    unitPrice: real,
    quantity: real,
    totalAmount: real,
    budget: real,
    priceToBudgetRatio: real,
    discountPct: real,
    supplierRating: real,
    historyOrders: real,
    historyReturns: real,
    returnRatio: real,
    buyerRiskScore: real,
    leadTimeDays: real,
    inStock: real,
    promotionActive: real,
    hasAlternatives: real,
    hasBudget: real,
    hasProduct: real)

  /** A rule whose predicate raises counts as not matching, so predicates are total here. */
  datatype Rule = Rule(name: string, when: FeatureVector -> bool, action: string, score: real, riskDelta: real)

  /** The action registry: every action with its audiences. */
  type Catalog = map<string, set<string>>

  datatype StrategyOutcome = StrategyOutcome(
    candidates: Dict<real>,
    riskScore: real,
    strategy: string,
    matched: seq<string>,
    mlFallback: Option<string>)

  // ---------------------------------------------------------------- specification

  function ScoreOf(d: Dict<real>, action: string): real {
    match Find(d, action)
    case None => 0.0
    case Some(score) => score
  }

  /** The votes of the matching rules, summed per action. */
  function Votes(rules: seq<Rule>, f: FeatureVector): Dict<real> {
    if rules == [] then []
    else
      var before, r := Votes(Init(rules), f), Last(rules);
      if r.when(f) then Assign(before, r.action, ScoreOf(before, r.action) + r.score) else before
  }

  function FallbackScores(f: FeatureVector): Dict<real> {
    if f.intentConfidence < 0.3 then [Entry("no_action", 0.5), Entry("request_more_info", 0.4)]
    else [Entry("request_more_info", 0.5), Entry("no_action", 0.3)]
  }

  function Scores(rules: seq<Rule>, f: FeatureVector): Dict<real> {
    if Votes(rules, f) == [] then FallbackScores(f) else Votes(rules, f)
  }

  /** Python's stable `sorted(..., reverse=True)` on the values. */
  function SortDesc(d: Dict<real>): Dict<real> {
    if d == [] then [] else InsertDesc(SortDesc(Init(d)), Last(d))
  }

  /** Behind every entry that is at least as large. */
  function InsertDesc(d: Dict<real>, e: Entry<real>): Dict<real> {
    if d == [] then [e]
    else if d[0].value >= e.value then [d[0]] + InsertDesc(d[1..], e)
    else [e] + d
  }

  /** The registered actions a user type may be offered. */
  predicate Allowed(catalog: Catalog, userType: string, action: string) {
    action in {FALLBACK_ACTION, "escalate_to_human", "request_more_info"} ||
    (action in catalog && (userType in {"", "any"} || userType in catalog[action] || "any" in catalog[action]))
  }

  function Confidence(raw: real): real {
    Round4(Min(1.0, raw))
  }

  /** Drops unknown actions and caps the rest. */
  function Normalise(ordered: Dict<real>, catalog: Catalog): Dict<real> {
    if ordered == [] then []
    else
      (if ordered[0].key in catalog then [Entry(ordered[0].key, Confidence(ordered[0].value))] else [])
      + Normalise(ordered[1..], catalog)
  }

  function OrFallback(d: Dict<real>): Dict<real> {
    if d == [] then [Entry(FALLBACK_ACTION, 0.0)] else d
  }

  function KeepAllowed(d: Dict<real>, catalog: Catalog, userType: string): Dict<real> {
    if d == [] then []
    else (if Allowed(catalog, userType, d[0].key) then [d[0]] else []) + KeepAllowed(d[1..], catalog, userType)
  }

  function Candidates(rules: seq<Rule>, f: FeatureVector, catalog: Catalog): Dict<real> {
    OrFallback(KeepAllowed(OrFallback(Normalise(SortDesc(Scores(rules, f)), catalog)), catalog, f.userType))
  }

  /** The action that is decided. */
  function Top(rules: seq<Rule>, f: FeatureVector, catalog: Catalog): string {
    Candidates(rules, f, catalog)[0].key
  }

  /** The sum of a weight over the rules. */
  function SumBy(rules: seq<Rule>, weight: Rule -> real): real {
    if rules == [] then 0.0 else SumBy(Init(rules), weight) + weight(Last(rules))
  }

  function RiskOf(f: FeatureVector): Rule -> real {
    (r: Rule) => if r.when(f) then r.riskDelta else 0.0
  }

  function VoteFor(f: FeatureVector, action: string): Rule -> real {
    (r: Rule) => if r.when(f) && r.action == action then r.score else 0.0
  }

  function RiskScore(rules: seq<Rule>, f: FeatureVector): real {
    Round4(Min(1.0, SumBy(rules, RiskOf(f))))
  }

  function Matched(rules: seq<Rule>, f: FeatureVector): seq<string> {
    if rules == [] then []
    else Matched(Init(rules), f) + (if Last(rules).when(f) then [Last(rules).name] else [])
  }

  function Evaluation(rules: seq<Rule>, f: FeatureVector, catalog: Catalog): StrategyOutcome {
    StrategyOutcome(Candidates(rules, f, catalog), RiskScore(rules, f), "rules",
                    if Votes(rules, f) == [] then ["fallback"] else Matched(rules, f), None)
  }

  // ---------------------------------------------------------------- the strategy

  method Evaluate(rules: seq<Rule>, f: FeatureVector, catalog: Catalog) returns (outcome: StrategyOutcome)
    ensures outcome == Evaluation(rules, f, catalog)
  {
    hide Votes, SumBy, Matched, SortDesc, Normalise, KeepAllowed, Round4;
    var scored, risk, matched := CollectVotes(rules, f);
    if scored == [] {
      scored := FallbackScores(f);
      matched := ["fallback"];
    }
    var ordered := SortDesc(scored);
    var normalised := NormaliseAll(ordered, catalog);
    if normalised == [] {
      normalised := [Entry(FALLBACK_ACTION, 0.0)];
    }
    var filtered := KeepAllowed(normalised, catalog, f.userType);
    if filtered == [] {
      filtered := [Entry(FALLBACK_ACTION, 0.0)];
    }
    outcome := StrategyOutcome(filtered, Round4(Min(1.0, risk)), "rules", matched, None);
  }

  method CollectVotes(rules: seq<Rule>, f: FeatureVector) returns (scored: Dict<real>, risk: real, matched: seq<string>)
    ensures scored == Votes(rules, f) && risk == SumBy(rules, RiskOf(f)) && matched == Matched(rules, f)
  {
    scored, risk, matched := [], 0.0, [];
    var i := 0;
    while i < |rules|
      invariant i <= |rules|
      invariant scored == Votes(rules[..i], f)
      invariant risk == SumBy(rules[..i], RiskOf(f))
      invariant matched == Matched(rules[..i], f)
    {
      hide Assign;
      var rule := rules[i];
      assert Init(rules[..i + 1]) == rules[..i] && Last(rules[..i + 1]) == rule;
      if rule.when(f) {
        scored := Assign(scored, rule.action, ScoreOf(scored, rule.action) + rule.score);
        risk := risk + rule.riskDelta;
        matched := matched + [rule.name];
      }
      i := i + 1;
    }
    assert rules[..i] == rules;
  }

  method NormaliseAll(ordered: Dict<real>, catalog: Catalog) returns (normalised: Dict<real>)
    ensures normalised == Normalise(ordered, catalog)
  {
    normalised := [];
    var i := 0;
    while i < |ordered|
      invariant i <= |ordered|
      invariant normalised + Normalise(ordered[i..], catalog) == Normalise(ordered, catalog)
    {
      hide Round4;
      ghost var rest := Normalise(ordered[i + 1..], catalog);
      assert ordered[i..][1..] == ordered[i + 1..];
      if ordered[i].key in catalog {
        assert normalised + ([Entry(ordered[i].key, Confidence(ordered[i].value))] + rest) ==
               (normalised + [Entry(ordered[i].key, Confidence(ordered[i].value))]) + rest;
        normalised := normalised + [Entry(ordered[i].key, Round4(Min(1.0, ordered[i].value)))];
      }
      i := i + 1;
    }
    assert normalised + [] == normalised;
  }

  // ---------------------------------------------------------------- what the votes mean

  /** Whether any matching rule votes for the action. */
  ghost predicate HasVote(rules: seq<Rule>, f: FeatureVector, action: string) {
    exists r :: r in rules && r.when(f) && r.action == action
  }

  lemma {:induction false} FindAssign(d: Dict<real>, k: string, v: real, key: string)
    ensures Find(Assign(d, k, v), key) == if key == k then Some(v) else Find(d, key)
  {
    if d != [] {
      FindAssign(d[1..], k, v, key);
      if d[0].key == k { assert ([Entry(k, v)] + d[1..])[1..] == d[1..]; }
      else { assert ([d[0]] + Assign(d[1..], k, v))[1..] == Assign(d[1..], k, v); }
    }
  }

  lemma {:induction false} AssignDistinct(d: Dict<real>, k: string, v: real)
    requires Distinct(d)
    ensures Distinct(Assign(d, k, v))
    ensures forall i :: 0 <= i < |Assign(d, k, v)| ==>
              Assign(d, k, v)[i].key == k || exists e :: e in d && e.key == Assign(d, k, v)[i].key
  {
    if d != [] && d[0].key != k {
      AssignDistinct(d[1..], k, v);
      var rest := Assign(d[1..], k, v);
      forall j | 0 <= j < |rest|
        ensures rest[j].key != d[0].key
        ensures rest[j].key == k || exists e :: e in d && e.key == rest[j].key
      {
        if rest[j].key != k {
          var e :| e in d[1..] && e.key == rest[j].key;
          assert e in d;
        }
      }
      assert d[0] in d;
    } else if d != [] {
      assert forall i :: 0 < i < |d| ==> d[i] in d;
    }
  }

  lemma {:induction false} VotesDistinct(rules: seq<Rule>, f: FeatureVector)
    ensures Distinct(Votes(rules, f))
  {
    if rules != [] {
      VotesDistinct(Init(rules), f);
      var before, r := Votes(Init(rules), f), Last(rules);
      AssignDistinct(before, r.action, ScoreOf(before, r.action) + r.score);
    }
  }

  lemma HasVoteStep(rules: seq<Rule>, f: FeatureVector, action: string)
    requires rules != []
    ensures HasVote(rules, f, action) <==>
            HasVote(Init(rules), f, action) || (Last(rules).when(f) && Last(rules).action == action)
  {
    assert rules == Init(rules) + [Last(rules)];
  }

  /** The votes are exactly the totals: an entry for every action voted for, with the sum of its scores. */
  lemma {:induction false} VotesAreTotals(rules: seq<Rule>, f: FeatureVector, action: string)
    ensures Find(Votes(rules, f), action) ==
            if HasVote(rules, f, action) then Some(SumBy(rules, VoteFor(f, action))) else None
    ensures !HasVote(rules, f, action) ==> SumBy(rules, VoteFor(f, action)) == 0.0
  {
    if rules != [] {
      hide Assign, Find, HasVote;
      var before, r := Votes(Init(rules), f), Last(rules);
      VotesAreTotals(Init(rules), f, action);
      HasVoteStep(rules, f, action);
      FindAssign(before, r.action, ScoreOf(before, r.action) + r.score, action);
    }
  }

  // ---------------------------------------------------------------- ranking

  ghost predicate NonIncreasing(d: Dict<real>) {
    forall i, j :: 0 <= i <= j < |d| ==> d[i].value >= d[j].value
  }

  lemma {:induction false} InsertKeepsOrder(d: Dict<real>, e: Entry<real>)
    requires NonIncreasing(d)
    ensures NonIncreasing(InsertDesc(d, e)) && |InsertDesc(d, e)| == |d| + 1
    ensures forall x :: x in InsertDesc(d, e) <==> x == e || x in d
  {
    if d != [] && d[0].value >= e.value {
      InsertKeepsOrder(d[1..], e);
      var rest := InsertDesc(d[1..], e);
      forall i | 0 <= i < |rest|
        ensures d[0].value >= rest[i].value
      {
        assert rest[i] in rest;
      }
      assert forall x :: x in d <==> x == d[0] || x in d[1..];
    }
  }

  lemma {:induction false} FindInsert(d: Dict<real>, e: Entry<real>, key: string)
    requires Find(d, e.key) == None
    ensures Find(InsertDesc(d, e), key) == if key == e.key then Some(e.value) else Find(d, key)
  {
    if d != [] && d[0].value >= e.value {
      FindInsert(d[1..], e, key);
      assert ([d[0]] + InsertDesc(d[1..], e))[1..] == InsertDesc(d[1..], e);
    } else {
      assert ([e] + d)[1..] == d;
    }
  }

  lemma FindInit(d: Dict<real>, key: string)
    requires d != [] && Distinct(d)
    ensures Find(d, key) == if key == Last(d).key then Some(Last(d).value) else Find(Init(d), key)
    ensures Find(Init(d), Last(d).key) == None
  {
    assert d == Init(d) + [Last(d)];
    FindMember(Init(d), Last(d).key);
    hide Find;
    FindAppend(Init(d), Last(d), key);
  }

  lemma {:induction false} InsertDistinct(d: Dict<real>, e: Entry<real>)
    requires Distinct(d) && NonIncreasing(d) && Find(d, e.key) == None
    ensures Distinct(InsertDesc(d, e))
  {
    FindMember(d, e.key);
    if d != [] && d[0].value >= e.value {
      InsertDistinct(d[1..], e);
      InsertKeepsOrder(d[1..], e);
      var rest := InsertDesc(d[1..], e);
      forall i | 0 <= i < |rest|
        ensures rest[i].key != d[0].key
      {
        assert rest[i] in rest;
        assert d[0] in d;
      }
    }
  }

  /** The entries with one value, in order. */
  function OfValue(d: Dict<real>, value: real): Dict<real> {
    if d == [] then [] else OfValue(Init(d), value) + (if Last(d).value == value then [Last(d)] else [])
  }

  lemma {:induction false} OfValueConcat(d1: Dict<real>, d2: Dict<real>, value: real)
    ensures OfValue(d1 + d2, value) == OfValue(d1, value) + OfValue(d2, value)
  {
    if d2 == [] {
      assert d1 + d2 == d1;
    } else {
      assert Init(d1 + d2) == d1 + Init(d2) && Last(d1 + d2) == Last(d2);
      OfValueConcat(d1, Init(d2), value);
    }
  }

  lemma {:induction false} NothingOfValue(d: Dict<real>, value: real)
    requires forall x :: x in d ==> x.value != value
    ensures OfValue(d, value) == []
  {
    if d != [] {
      assert Last(d) in d && forall x :: x in Init(d) ==> x in d;
      NothingOfValue(Init(d), value);
    }
  }

  /** An entry is inserted behind all its equals. */
  lemma {:induction false} InsertIsStable(d: Dict<real>, e: Entry<real>, value: real)
    requires NonIncreasing(d)
    ensures OfValue(InsertDesc(d, e), value) == OfValue(d + [e], value)
  {
    if d == [] {
      assert [] + [e] == [e];
    } else if d[0].value >= e.value {
      InsertIsStable(d[1..], e, value);
      OfValueConcat([d[0]], InsertDesc(d[1..], e), value);
      OfValueConcat([d[0]], d[1..] + [e], value);
      assert d + [e] == [d[0]] + (d[1..] + [e]);
    } else {
      OfValueConcat([e], d, value);
      OfValueConcat(d, [e], value);
      if value == e.value { NothingOfValue(d, value); } else { assert Init([e]) == [] && OfValue([e], value) == []; }
    }
  }

  /** Python's sort is stable, also in reverse: equal values keep their order. */
  lemma {:induction false} SortDescIsStable(d: Dict<real>, value: real)
    requires Distinct(d)
    ensures OfValue(SortDesc(d), value) == OfValue(d, value)
  {
    if d != [] {
      var rest := SortDesc(Init(d));
      SortDescIsStable(Init(d), value);
      SortDescSorts(Init(d));
      InsertIsStable(rest, Last(d), value);
      OfValueConcat(rest, [Last(d)], value);
      OfValueConcat(Init(d), [Last(d)], value);
      assert d == Init(d) + [Last(d)];
    }
  }

  /** Sorting orders the entries and loses none. */
  lemma {:induction false} SortDescSorts(d: Dict<real>)
    requires Distinct(d)
    ensures NonIncreasing(SortDesc(d)) && Distinct(SortDesc(d))
    ensures forall key :: Find(SortDesc(d), key) == Find(d, key)
  {
    if d != [] {
      var rest, e := SortDesc(Init(d)), Last(d);
      SortDescSorts(Init(d));
      hide Find;
      FindInit(d, e.key);
      InsertKeepsOrder(rest, e);
      InsertDistinct(rest, e);
      forall key
        ensures Find(SortDesc(d), key) == Find(d, key)
      {
        FindInit(d, key);
        FindInsert(rest, e, key);
      }
    }
  }

  /** Whether a ranked action is shown to the buyer. */
  predicate IsShown(catalog: Catalog, userType: string, action: string) {
    action in catalog && Allowed(catalog, userType, action)
  }

  /** What is left of a ranking: unknown and disallowed actions dropped, the rest capped and rounded. */
  function Shown(ordered: Dict<real>, catalog: Catalog, userType: string): Dict<real> {
    if ordered == [] then []
    else if IsShown(catalog, userType, ordered[0].key)
    then [Entry(ordered[0].key, Confidence(ordered[0].value))] + Shown(ordered[1..], catalog, userType)
    else Shown(ordered[1..], catalog, userType)
  }

  lemma {:induction false} TwoFiltersAreOne(ordered: Dict<real>, catalog: Catalog, userType: string)
    ensures KeepAllowed(Normalise(ordered, catalog), catalog, userType) == Shown(ordered, catalog, userType)
  {
    if ordered != [] {
      hide Confidence, Allowed;
      TwoFiltersAreOne(ordered[1..], catalog, userType);
      var rest := Normalise(ordered[1..], catalog);
      if ordered[0].key in catalog {
        assert ([Entry(ordered[0].key, Confidence(ordered[0].value))] + rest)[1..] == rest;
      } else {
        assert [] + rest == rest;
      }
    }
  }

  lemma CandidatesAreShown(rules: seq<Rule>, f: FeatureVector, catalog: Catalog)
    ensures Candidates(rules, f, catalog) == OrFallback(Shown(SortDesc(Scores(rules, f)), catalog, f.userType))
  {
    var ordered := SortDesc(Scores(rules, f));
    TwoFiltersAreOne(ordered, catalog, f.userType);
    hide SortDesc, Scores, Confidence;
    var fallback := [Entry(FALLBACK_ACTION, 0.0)];
    assert KeepAllowed(fallback, catalog, f.userType) == fallback by { assert fallback[1..] == []; }
  }

  /** An action is shown exactly when it is ranked, registered and allowed, with its capped score. */
  lemma {:induction false} ShownFinds(ordered: Dict<real>, catalog: Catalog, userType: string, action: string)
    requires Distinct(ordered)
    ensures Find(Shown(ordered, catalog, userType), action) ==
            if IsShown(catalog, userType, action) && Find(ordered, action).Some?
            then Some(Confidence(Find(ordered, action).value)) else None
  {
    if ordered != [] {
      hide Confidence, IsShown;
      var head, rest := ordered[0], ordered[1..];
      ShownFinds(rest, catalog, userType, action);
      HeadIsUnique(ordered);
      var e := Entry(head.key, Confidence(head.value));
      assert ([e] + Shown(rest, catalog, userType))[1..] == Shown(rest, catalog, userType);
    }
  }

  lemma HeadIsUnique(d: Dict<real>)
    requires d != [] && Distinct(d)
    ensures Find(d[1..], d[0].key) == None
    ensures forall e :: e in d[1..] ==> e.key != d[0].key && Find(d, e.key) == Some(e.value) == Find(d[1..], e.key)
  {
    FindMember(d[1..], d[0].key);
    forall e | e in d[1..]
      ensures e.key != d[0].key && Find(d[1..], e.key) == Some(e.value)
    {
      FindUnique(d[1..], e);
    }
  }

  /** Shown actions come in the order of their uncapped scores. */
  ghost predicate RankedBy(shown: Dict<real>, scores: Dict<real>) {
    && (forall i :: 0 <= i < |shown| ==>
          Find(scores, shown[i].key).Some? && shown[i].value == Confidence(ScoreOf(scores, shown[i].key)))
    && (forall i, j :: 0 <= i <= j < |shown| ==> ScoreOf(scores, shown[i].key) >= ScoreOf(scores, shown[j].key))
  }

  lemma {:induction false} ShownRanked(ordered: Dict<real>, catalog: Catalog, userType: string)
    requires Distinct(ordered) && NonIncreasing(ordered)
    ensures RankedBy(Shown(ordered, catalog, userType), ordered)
    ensures Distinct(Shown(ordered, catalog, userType))
    ensures forall i :: 0 <= i < |Shown(ordered, catalog, userType)| ==>
              IsShown(catalog, userType, Shown(ordered, catalog, userType)[i].key)
  {
    if ordered != [] {
      hide Confidence, IsShown;
      var head, rest := ordered[0], Shown(ordered[1..], catalog, userType);
      ShownRanked(ordered[1..], catalog, userType);
      HeadIsUnique(ordered);
      forall i | 0 <= i < |rest|
        ensures rest[i].key != head.key && Find(ordered, rest[i].key) == Find(ordered[1..], rest[i].key)
        ensures ScoreOf(ordered, rest[i].key) <= head.value
      {
        FindMember(ordered[1..], rest[i].key);
        var e := Entry(rest[i].key, ScoreOf(ordered[1..], rest[i].key));
        assert e in ordered[1..];
      }
    }
  }

  lemma ScoresDistinct(rules: seq<Rule>, f: FeatureVector)
    ensures Distinct(Scores(rules, f))
  {
    VotesDistinct(rules, f);
  }

  /**
   * The ranking means what it says: every candidate is registered and allowed, carries its capped
   * uncapped score, and stands in the order of those scores; and every registered and allowed action
   * that scored at all is a candidate. Only when there is none does the fallback stand alone.
   */
  lemma CandidatesFollowScores(rules: seq<Rule>, f: FeatureVector, catalog: Catalog)
    ensures var cs, scores := Candidates(rules, f, catalog), Scores(rules, f);
            && cs != [] && Distinct(cs)
            && (RankedBy(cs, scores) || cs == [Entry(FALLBACK_ACTION, 0.0)])
            && (forall i :: 0 <= i < |cs| ==> Allowed(catalog, f.userType, cs[i].key))
            && (forall action :: IsShown(catalog, f.userType, action) && Find(scores, action).Some? ==>
                  RankedBy(cs, scores) && Find(cs, action) == Some(Confidence(ScoreOf(scores, action))))
  {
    hide Confidence;
    var scores := Scores(rules, f);
    var ordered := SortDesc(scores);
    ScoresDistinct(rules, f);
    SortDescSorts(scores);
    CandidatesAreShown(rules, f, catalog);
    hide SortDesc, Scores, Shown, Candidates, Find;
    ShownRanked(ordered, catalog, f.userType);
    RankedAlike(Shown(ordered, catalog, f.userType), ordered, scores);
    forall action | IsShown(catalog, f.userType, action) && Find(scores, action).Some?
      ensures Shown(ordered, catalog, f.userType) != []
      ensures Find(Shown(ordered, catalog, f.userType), action) == Some(Confidence(ScoreOf(scores, action)))
    {
      ShownFinds(ordered, catalog, f.userType, action);
      FindMember(Shown(ordered, catalog, f.userType), action);
    }
  }

  lemma RankedAlike(shown: Dict<real>, d: Dict<real>, scores: Dict<real>)
    requires RankedBy(shown, d) && forall key :: Find(d, key) == Find(scores, key)
    ensures RankedBy(shown, scores)
  {
    hide Find, Confidence;
  }

  /** Confidences never rise along the list nor exceed 1, and none is negative unless some rule's score is. */
  lemma CandidatesAreWellFormed(rules: seq<Rule>, f: FeatureVector, catalog: Catalog)
    ensures var cs := Candidates(rules, f, catalog);
            && NonIncreasing(cs)
            && (forall i :: 0 <= i < |cs| ==> cs[i].value <= 1.0)
            && ((forall r :: r in rules ==> r.score >= 0.0) ==> forall i :: 0 <= i < |cs| ==> 0.0 <= cs[i].value)
  {
    hide Round4;
    var cs, scores := Candidates(rules, f, catalog), Scores(rules, f);
    CandidatesFollowScores(rules, f, catalog);
    hide Candidates, Scores;
    if RankedBy(cs, scores) {
      forall i | 0 <= i < |cs|
        ensures cs[i].value <= 1.0
        ensures (forall r :: r in rules ==> r.score >= 0.0) ==> 0.0 <= cs[i].value
      {
        Round4Monotone(Min(1.0, ScoreOf(scores, cs[i].key)), 1.0);
        Round4Unit(Min(1.0, ScoreOf(scores, cs[i].key)));
        if forall r :: r in rules ==> r.score >= 0.0 { ScoresNotNegative(rules, f, cs[i].key); }
      }
      forall i, j | 0 <= i <= j < |cs|
        ensures cs[i].value >= cs[j].value
      {
        Round4Monotone(Min(1.0, ScoreOf(scores, cs[j].key)), Min(1.0, ScoreOf(scores, cs[i].key)));
      }
    }
  }

  lemma {:induction false} SumNotNegative(rules: seq<Rule>, weight: Rule -> real)
    requires forall r :: r in rules ==> weight(r) >= 0.0
    ensures SumBy(rules, weight) >= 0.0
  {
    if rules != [] {
      assert Last(rules) in rules && forall r :: r in Init(rules) ==> r in rules;
      SumNotNegative(Init(rules), weight);
    }
  }

  lemma ScoresNotNegative(rules: seq<Rule>, f: FeatureVector, action: string)
    requires forall r :: r in rules ==> r.score >= 0.0
    ensures ScoreOf(Scores(rules, f), action) >= 0.0
  {
    VotesAreTotals(rules, f, action);
    assert forall r :: r in rules ==> VoteFor(f, action)(r) >= 0.0;
    SumNotNegative(rules, VoteFor(f, action));
    FindMember(FallbackScores(f), action);
  }

  /** The risk score is a probability when no rule lowers the risk. */
  lemma RiskIsBounded(rules: seq<Rule>, f: FeatureVector)
    requires forall r :: r in rules ==> r.riskDelta >= 0.0
    ensures 0.0 <= RiskScore(rules, f) <= 1.0
  {
    hide Round4;
    assert forall r :: r in rules ==> RiskOf(f)(r) >= 0.0;
    SumNotNegative(rules, RiskOf(f));
    Round4Unit(Min(1.0, SumBy(rules, RiskOf(f))));
  }

  // ---------------------------------------------------------------- the order of the rules

  lemma {:induction false} SumConcat(r1: seq<Rule>, r2: seq<Rule>, weight: Rule -> real)
    ensures SumBy(r1 + r2, weight) == SumBy(r1, weight) + SumBy(r2, weight)
  {
    if r2 == [] {
      assert r1 + r2 == r1;
    } else {
      assert Init(r1 + r2) == r1 + Init(r2) && Last(r1 + r2) == Last(r2);
      SumConcat(r1, Init(r2), weight);
    }
  }

  /** A permutation without one element, on both sides. */
  lemma WithoutOne<T>(s1: seq<T>, s2: seq<T>) returns (i: nat)
    requires s1 != [] && multiset(s1) == multiset(s2)
    ensures i < |s2| && s2[i] == Last(s1)
    ensures multiset(Init(s1)) == multiset(s2[..i] + s2[i + 1..])
  {
    var x := Last(s1);
    assert s1 == Init(s1) + [x];
    assert x in multiset(s2);
    i :| i < |s2| && s2[i] == x;
    assert s2 == s2[..i] + [x] + s2[i + 1..];
    var m1, m2 := multiset(Init(s1)), multiset(s2[..i] + s2[i + 1..]);
    assert multiset(s1) == m1 + multiset{x};
    assert multiset(s2) == m2 + multiset{x};
    CancelOne(m1, m2, x);
  }

  lemma CancelOne<T>(m1: multiset<T>, m2: multiset<T>, x: T)
    requires m1 + multiset{x} == m2 + multiset{x}
    ensures m1 == m2
  {
    assert m1 == (m1 + multiset{x}) - multiset{x};
  }

  lemma {:induction false} SumPermuted(r1: seq<Rule>, r2: seq<Rule>, weight: Rule -> real)
    requires multiset(r1) == multiset(r2)
    ensures SumBy(r1, weight) == SumBy(r2, weight)
  {
    if r1 == [] {
      assert |multiset(r2)| == 0;
    } else {
      var i := WithoutOne(r1, r2);
      SumPermuted(Init(r1), r2[..i] + r2[i + 1..], weight);
      SumConcat(r2[..i], r2[i + 1..], weight);
      SumConcat(r2[..i] + [r2[i]], r2[i + 1..], weight);
      assert Init(r2[..i] + [r2[i]]) == r2[..i];
      assert r2 == r2[..i] + [r2[i]] + r2[i + 1..];
    }
  }

  lemma ScoresPermuted(r1: seq<Rule>, r2: seq<Rule>, f: FeatureVector)
    requires multiset(r1) == multiset(r2)
    ensures forall action :: Find(Votes(r1, f), action) == Find(Votes(r2, f), action)
    ensures forall action :: Find(Scores(r1, f), action) == Find(Scores(r2, f), action)
  {
    assert forall r :: r in r1 <==> r in multiset(r1);
    assert forall r :: r in r2 <==> r in multiset(r2);
    forall action
      ensures Find(Votes(r1, f), action) == Find(Votes(r2, f), action)
    {
      VotesAreTotals(r1, f, action);
      VotesAreTotals(r2, f, action);
      SumPermuted(r1, r2, VoteFor(f, action));
    }
    EmptyByFind(Votes(r1, f), Votes(r2, f));
  }

  lemma EmptyByFind(d1: Dict<real>, d2: Dict<real>)
    requires forall action :: Find(d1, action) == Find(d2, action)
    ensures d1 == [] <==> d2 == []
  {
    if d1 != [] { assert Find(d1, d1[0].key).Some?; }
    if d2 != [] { assert Find(d2, d2[0].key).Some?; }
  }

  /**
   * The order of the rules changes no total, no risk score and no candidate's confidence. It can change
   * who comes first, but only among candidates with the same uncapped total.
   */
  lemma RuleOrderMattersOnlyForTies(r1: seq<Rule>, r2: seq<Rule>, f: FeatureVector, catalog: Catalog)
    requires multiset(r1) == multiset(r2)
    ensures RiskScore(r1, f) == RiskScore(r2, f)
    ensures forall action :: Find(Scores(r1, f), action) == Find(Scores(r2, f), action)
    ensures forall action :: Find(Candidates(r1, f, catalog), action) == Find(Candidates(r2, f, catalog), action)
    ensures ScoreOf(Scores(r1, f), Top(r1, f, catalog)) ==
            ScoreOf(Scores(r1, f), Top(r2, f, catalog))
  {
    hide Confidence, Round4;
    SumPermuted(r1, r2, RiskOf(f));
    ScoresPermuted(r1, r2, f);
    SameCandidates(r1, r2, f, catalog);
    CandidatesFollowScores(r1, f, catalog);
    CandidatesFollowScores(r2, f, catalog);
    SameTop(Candidates(r1, f, catalog), Candidates(r2, f, catalog), Scores(r1, f), Scores(r2, f));
  }

  lemma SameCandidates(r1: seq<Rule>, r2: seq<Rule>, f: FeatureVector, catalog: Catalog)
    requires forall action :: Find(Scores(r1, f), action) == Find(Scores(r2, f), action)
    ensures forall action :: Find(Candidates(r1, f, catalog), action) == Find(Candidates(r2, f, catalog), action)
  {
    hide Confidence, Scores, SortDesc, Shown, Candidates, Find;
    var d1, d2 := SortDesc(Scores(r1, f)), SortDesc(Scores(r2, f));
    ScoresDistinct(r1, f);
    ScoresDistinct(r2, f);
    SortDescSorts(Scores(r1, f));
    SortDescSorts(Scores(r2, f));
    CandidatesAreShown(r1, f, catalog);
    CandidatesAreShown(r2, f, catalog);
    var s1, s2 := Shown(d1, catalog, f.userType), Shown(d2, catalog, f.userType);
    forall action
      ensures Find(s1, action) == Find(s2, action)
    {
      ShownFinds(d1, catalog, f.userType, action);
      ShownFinds(d2, catalog, f.userType, action);
    }
    EmptyByFind(s1, s2);
  }

  lemma SameTop(c1: Dict<real>, c2: Dict<real>, s1: Dict<real>, s2: Dict<real>)
    requires forall action :: Find(c1, action) == Find(c2, action) && Find(s1, action) == Find(s2, action)
    requires c1 != [] && c2 != [] && Distinct(c1) && Distinct(c2)
    requires RankedBy(c1, s1) || c1 == [Entry(FALLBACK_ACTION, 0.0)]
    requires RankedBy(c2, s2) || c2 == [Entry(FALLBACK_ACTION, 0.0)]
    ensures ScoreOf(s1, c1[0].key) == ScoreOf(s1, c2[0].key)
  {
    FindUnique(c1, c1[0]);
    FindUnique(c2, c2[0]);
    FindMember(c1, c2[0].key);
    FindMember(c2, c1[0].key);
    hide Find, Confidence;
    var i :| 0 <= i < |c1| && c1[i].key == c2[0].key;
    var j :| 0 <= j < |c2| && c2[j].key == c1[0].key;
  }

  // ---------------------------------------------------------------- exactly when the order decides

  lemma {:induction false} FirstVote(rules: seq<Rule>, f: FeatureVector)
    requires rules != [] && rules[0].when(f)
    ensures Votes(rules, f) != [] && Votes(rules, f)[0].key == rules[0].action
  {
    if |rules| == 1 {
      assert Votes(Init(rules), f) == [];
    } else {
      FirstVote(Init(rules), f);
    }
  }

  /** The first entry of a ranking that is shown. */
  function FirstShown(d: Dict<real>, catalog: Catalog, userType: string): Option<Entry<real>> {
    if d == [] then None
    else if IsShown(catalog, userType, d[0].key) then Some(d[0])
    else FirstShown(d[1..], catalog, userType)
  }

  lemma {:induction false} FirstShownLeads(d: Dict<real>, catalog: Catalog, userType: string)
    ensures FirstShown(d, catalog, userType).Some? ==>
              Shown(d, catalog, userType) != []
              && Shown(d, catalog, userType)[0].key == FirstShown(d, catalog, userType).value.key
              && FirstShown(d, catalog, userType).value in d
  {
    hide IsShown, Confidence;
    if d != [] { FirstShownLeads(d[1..], catalog, userType); }
  }

  /** An entry that is not shown, or not larger than the first shown one, is inserted without displacing it. */
  lemma {:induction false} InsertBehind(
      d: Dict<real>, e: Entry<real>, x: Entry<real>, catalog: Catalog, userType: string)
    requires NonIncreasing(d) && FirstShown(d, catalog, userType) == Some(x)
    requires IsShown(catalog, userType, e.key) ==> e.value <= x.value
    ensures FirstShown(InsertDesc(d, e), catalog, userType) == Some(x)
  {
    hide IsShown;
    FirstShownLeads(d, catalog, userType);
    if d[0].value >= e.value {
      assert ([d[0]] + InsertDesc(d[1..], e))[1..] == InsertDesc(d[1..], e);
      if !IsShown(catalog, userType, d[0].key) { InsertBehind(d[1..], e, x, catalog, userType); }
    } else {
      assert ([e] + d)[1..] == d;
    }
  }

  /** Sorting leaves in front what was in front, as long as nothing that is shown exceeds it. */
  lemma {:induction false} FrontStays(d: Dict<real>, catalog: Catalog, userType: string)
    requires d != [] && Distinct(d) && IsShown(catalog, userType, d[0].key)
    requires forall e :: e in d && IsShown(catalog, userType, e.key) ==> e.value <= d[0].value
    ensures FirstShown(SortDesc(d), catalog, userType) == Some(d[0])
  {
    hide IsShown, Distinct, InsertDesc, FirstShown;
    if |d| == 1 {
      OneSorted(d, catalog, userType);
    } else {
      assert Distinct(Init(d)) by { hide *; DistinctInit(d); }
      assert Last(d) in d && forall e :: e in Init(d) ==> e in d;
      FrontStays(Init(d), catalog, userType);
      SortDescSorts(Init(d));
      InsertBehind(SortDesc(Init(d)), Last(d), d[0], catalog, userType);
    }
  }

  lemma OneSorted(d: Dict<real>, catalog: Catalog, userType: string)
    requires |d| == 1 && IsShown(catalog, userType, d[0].key)
    ensures FirstShown(SortDesc(d), catalog, userType) == Some(d[0])
  {
    assert Init(d) == [] && SortDesc(d) == [d[0]];
  }

  lemma DistinctInit(d: Dict<real>)
    requires d != [] && Distinct(d)
    ensures Distinct(Init(d))
  {
  }

  /** No action that is shown and voted for has a larger total than this one. */
  ghost predicate Unbeaten(rules: seq<Rule>, f: FeatureVector, catalog: Catalog, action: string) {
    forall other :: IsShown(catalog, f.userType, other) && Find(Votes(rules, f), other).Some? ==>
      ScoreOf(Votes(rules, f), other) <= ScoreOf(Votes(rules, f), action)
  }

  /** The first matching rule decides, if its action is shown and unbeaten. */
  lemma FirstRuleDecides(rules: seq<Rule>, f: FeatureVector, catalog: Catalog)
    requires rules != [] && rules[0].when(f) && IsShown(catalog, f.userType, rules[0].action)
    requires Unbeaten(rules, f, catalog, rules[0].action)
    ensures Top(rules, f, catalog) == rules[0].action
  {
    hide IsShown, Confidence, SumBy;
    var d := Votes(rules, f);
    FirstVote(rules, f);
    VotesDistinct(rules, f);
    CandidatesAreShown(rules, f, catalog);
    hide Votes, SortDesc, Shown, FirstShown;
    forall e | e in d && IsShown(catalog, f.userType, e.key)
      ensures e.value <= d[0].value
    {
      FindUnique(d, e);
      FindUnique(d, d[0]);
    }
    FrontStays(d, catalog, f.userType);
    FirstShownLeads(SortDesc(d), catalog, f.userType);
  }

  /** The list with its i-th rule moved to the front. */
  function PulledForward(rules: seq<Rule>, i: nat): seq<Rule>
    requires i < |rules|
  {
    [rules[i]] + rules[..i] + rules[i + 1..]
  }

  lemma PulledForwardPermutes(rules: seq<Rule>, i: nat)
    requires i < |rules|
    ensures multiset(PulledForward(rules, i)) == multiset(rules)
  {
    assert rules == rules[..i] + [rules[i]] + rules[i + 1..];
  }

  /** A matching rule that votes for a shown action which no shown action that scored exceeds. */
  ghost predicate Leads(rules: seq<Rule>, f: FeatureVector, catalog: Catalog, r: Rule) {
    && r in rules && r.when(f) && IsShown(catalog, f.userType, r.action)
    && forall other :: IsShown(catalog, f.userType, other) && Find(Scores(rules, f), other).Some? ==>
         ScoreOf(Scores(rules, f), other) <= ScoreOf(Scores(rules, f), r.action)
  }

  /** Two matching rules that vote for different shown actions are both in the lead. */
  ghost predicate LeadIsShared(rules: seq<Rule>, f: FeatureVector, catalog: Catalog) {
    exists r1, r2 :: Leads(rules, f, catalog, r1) && Leads(rules, f, catalog, r2) && r1.action != r2.action
  }

  /** Another matching rule votes for a shown action with the same total as the action on top. */
  ghost predicate TopIsTied(rules: seq<Rule>, f: FeatureVector, catalog: Catalog) {
    var top := Top(rules, f, catalog);
    exists r :: r in rules && r.when(f) && IsShown(catalog, f.userType, r.action) && r.action != top
      && ScoreOf(Scores(rules, f), r.action) == ScoreOf(Scores(rules, f), top)
  }

  /** Whether some order of the same rules decides another action. */
  ghost predicate OrderDecides(rules: seq<Rule>, f: FeatureVector, catalog: Catalog) {
    exists other: seq<Rule> :: multiset(other) == multiset(rules)
      && Top(other, f, catalog) != Top(rules, f, catalog)
  }

  lemma VotesAreScores(rules: seq<Rule>, f: FeatureVector, r: Rule)
    requires r in rules && r.when(f)
    ensures Votes(rules, f) != [] && Scores(rules, f) == Votes(rules, f) && Find(Votes(rules, f), r.action).Some?
  {
    VotesAreTotals(rules, f, r.action);
    hide Votes, SumBy;
  }

  /** Nothing that is shown outscores the action on top. */
  lemma TopIsUnbeaten(rules: seq<Rule>, f: FeatureVector, catalog: Catalog, action: string)
    requires IsShown(catalog, f.userType, action) && Find(Scores(rules, f), action).Some?
    ensures ScoreOf(Scores(rules, f), action) <= ScoreOf(Scores(rules, f), Top(rules, f, catalog))
  {
    hide Confidence, Scores;
    CandidatesFollowScores(rules, f, catalog);
    var cs := Candidates(rules, f, catalog);
    hide Candidates;
    FindMember(cs, action);
    hide Find;
    var j :| 0 <= j < |cs| && cs[j].key == action;
  }

  lemma TieLetsOrderDecide(rules: seq<Rule>, f: FeatureVector, catalog: Catalog, i: nat)
    requires i < |rules| && rules[i].when(f) && IsShown(catalog, f.userType, rules[i].action)
    requires ScoreOf(Scores(rules, f), rules[i].action) ==
             ScoreOf(Scores(rules, f), Top(rules, f, catalog))
    ensures Top(PulledForward(rules, i), f, catalog) == rules[i].action
  {
    hide Confidence, Candidates, IsShown, SumBy;
    var other, a := PulledForward(rules, i), rules[i].action;
    PulledForwardPermutes(rules, i);
    ScoresPermuted(rules, other, f);
    VotesAreScores(rules, f, rules[i]);
    hide Votes, Scores;
    forall o | IsShown(catalog, f.userType, o) && Find(Votes(other, f), o).Some?
      ensures ScoreOf(Votes(other, f), o) <= ScoreOf(Votes(other, f), a)
    {
      TopIsUnbeaten(rules, f, catalog, o);
    }
    hide Find;
    FirstRuleDecides(other, f, catalog);
  }

  /** An action that only another order puts on top is shown, has votes, and ties with the top of this one. */
  lemma OtherTopIsTied(rules: seq<Rule>, other: seq<Rule>, f: FeatureVector, catalog: Catalog)
    requires multiset(other) == multiset(rules)
    requires Top(other, f, catalog) != Top(rules, f, catalog)
    ensures TopIsTied(rules, f, catalog)
  {
    hide Confidence, IsShown, SumBy;
    var action := Top(other, f, catalog);
    RuleOrderMattersOnlyForTies(rules, other, f, catalog);
    ScoresPermuted(rules, other, f);
    EmptyByFind(Votes(rules, f), Votes(other, f));
    assert Votes(rules, f) != [];
    OtherTopIsShown(rules, other, f, catalog);
    VotesAreTotals(rules, f, action);
    hide Votes, Candidates, Find;
    var r :| r in rules && r.when(f) && r.action == action;
  }

  lemma OtherTopIsShown(rules: seq<Rule>, other: seq<Rule>, f: FeatureVector, catalog: Catalog)
    requires forall action :: Find(Candidates(rules, f, catalog), action) == Find(Candidates(other, f, catalog), action)
    requires Top(other, f, catalog) != Top(rules, f, catalog)
    ensures var action := Top(other, f, catalog);
            IsShown(catalog, f.userType, action) && Find(Scores(rules, f), action).Some?
  {
    var cs, action := Candidates(rules, f, catalog), Top(other, f, catalog);
    assert Find(Candidates(other, f, catalog), action).Some?;
    hide Confidence, IsShown, Scores, Candidates, SortDesc;
    CandidatesAreShown(rules, f, catalog);
    ScoresDistinct(rules, f);
    SortDescSorts(Scores(rules, f));
    ShownFinds(SortDesc(Scores(rules, f)), catalog, f.userType, action);
    assert [Entry(FALLBACK_ACTION, 0.0)][1..] == [];
    hide Shown;
  }

  /** As soon as a rule leads, the action on top is shown and scored. */
  lemma TopIsShown(rules: seq<Rule>, f: FeatureVector, catalog: Catalog, action: string)
    requires IsShown(catalog, f.userType, action) && Find(Scores(rules, f), action).Some?
    ensures IsShown(catalog, f.userType, Top(rules, f, catalog))
    ensures Find(Scores(rules, f), Top(rules, f, catalog)).Some?
  {
    var ordered := SortDesc(Scores(rules, f));
    ScoresDistinct(rules, f);
    SortDescSorts(Scores(rules, f));
    CandidatesAreShown(rules, f, catalog);
    hide Confidence, IsShown, Scores, SortDesc, Candidates;
    ShownFinds(ordered, catalog, f.userType, action);
    ShownRanked(ordered, catalog, f.userType);
    FindMember(Shown(ordered, catalog, f.userType), action);
    hide Shown, Find;
  }

  lemma SharedLeadTies(rules: seq<Rule>, f: FeatureVector, catalog: Catalog)
    requires LeadIsShared(rules, f, catalog)
    ensures TopIsTied(rules, f, catalog)
  {
    hide IsShown, Scores, Top;
    var r1, r2 :| Leads(rules, f, catalog, r1) && Leads(rules, f, catalog, r2) && r1.action != r2.action;
    var top := Top(rules, f, catalog);
    VotesAreScores(rules, f, r1);
    VotesAreScores(rules, f, r2);
    TopIsShown(rules, f, catalog, r1.action);
    TopIsUnbeaten(rules, f, catalog, r1.action);
    TopIsUnbeaten(rules, f, catalog, r2.action);
    var r := if r1.action != top then r1 else r2;
    assert r in rules && r.when(f);
  }

  lemma TieSharesLead(rules: seq<Rule>, f: FeatureVector, catalog: Catalog)
    requires TopIsTied(rules, f, catalog)
    ensures LeadIsShared(rules, f, catalog)
  {
    hide IsShown, Top, SumBy;
    var top := Top(rules, f, catalog);
    var r1 :| r1 in rules && r1.when(f) && IsShown(catalog, f.userType, r1.action) && r1.action != top
      && ScoreOf(Scores(rules, f), r1.action) == ScoreOf(Scores(rules, f), top);
    VotesAreScores(rules, f, r1);
    TopIsShown(rules, f, catalog, r1.action);
    VotesAreTotals(rules, f, top);
    hide Votes, Scores;
    var r2 :| r2 in rules && r2.when(f) && r2.action == top;
    forall other | IsShown(catalog, f.userType, other) && Find(Scores(rules, f), other).Some?
      ensures ScoreOf(Scores(rules, f), other) <= ScoreOf(Scores(rules, f), top)
    {
      TopIsUnbeaten(rules, f, catalog, other);
    }
    assert Leads(rules, f, catalog, r1) && Leads(rules, f, catalog, r2);
  }

  /**
   * Exactly when the order of the rules decides: some order of the same rules puts another action on
   * top if and only if two matching rules vote for different shown actions with equal totals that no
   * shown action exceeds.
   */
  lemma OrderDecidesExactlyOnTies(rules: seq<Rule>, f: FeatureVector, catalog: Catalog)
    ensures OrderDecides(rules, f, catalog) <==> LeadIsShared(rules, f, catalog)
  {
    hide Top, Scores, IsShown, Leads, LeadIsShared;
    if LeadIsShared(rules, f, catalog) {
      SharedLeadTies(rules, f, catalog);
      var top := Top(rules, f, catalog);
      var r :| r in rules && r.when(f) && IsShown(catalog, f.userType, r.action) && r.action != top
        && ScoreOf(Scores(rules, f), r.action) == ScoreOf(Scores(rules, f), top);
      var i :| 0 <= i < |rules| && rules[i] == r;
      PulledForwardPermutes(rules, i);
      TieLetsOrderDecide(rules, f, catalog, i);
    }
    if OrderDecides(rules, f, catalog) {
      var other: seq<Rule> :| multiset(other) == multiset(rules) && Top(other, f, catalog) != Top(rules, f, catalog);
      OtherTopIsTied(rules, other, f, catalog);
      TieSharesLead(rules, f, catalog);
    }
  }

  /** An instance: two matching rules with the actions and scores of the first two of the default table. */
  lemma TiesFollowRuleOrder(f: FeatureVector, catalog: Catalog) returns (rules: seq<Rule>)
    requires "cancel_request" in catalog && "any" in catalog["cancel_request"]
    requires "initiate_return" in catalog && "any" in catalog["initiate_return"]
    ensures OrderDecides(rules, f, catalog)
  {
    var cancel := Rule("cancel", _ => true, "cancel_request", 0.95, 0.1);
    var giveBack := Rule("return", _ => true, "initiate_return", 0.95, 0.05);
    rules := [cancel, giveBack];
    TwoRulesTie(cancel, giveBack, f, catalog);
    OrderDecidesExactlyOnTies(rules, f, catalog);
  }

  lemma FindInTwo(e1: Entry<real>, e2: Entry<real>, key: string)
    ensures Find([e1, e2], key) ==
            if key == e1.key then Some(e1.value) else if key == e2.key then Some(e2.value) else None
  {
    assert [e2][1..] == [];
    assert Find([e2], key) == if key == e2.key then Some(e2.value) else None;
    assert [e1, e2][1..] == [e2];
  }

  lemma TwoRulesTie(first: Rule, second: Rule, f: FeatureVector, catalog: Catalog)
    requires first.when(f) && second.when(f) && first.action != second.action && first.score == second.score
    requires IsShown(catalog, f.userType, first.action) && IsShown(catalog, f.userType, second.action)
    ensures LeadIsShared([first, second], f, catalog)
  {
    hide IsShown, Confidence;
    var rules := [first, second];
    assert Init(rules) == [first] && Init([first]) == [];
    var e1, e2 := Entry(first.action, 0.0 + first.score), Entry(second.action, 0.0 + second.score);
    assert Votes([first], f) == [e1];
    assert [e1][1..] == [];
    assert Assign([e1], second.action, e2.value) == [e1] + Assign([], second.action, e2.value);
    FindMember([e1], second.action);
    assert Votes(rules, f) == [e1, e2];
    VotesAreScores(rules, f, rules[1]);
    hide Votes;
    forall action
      ensures Find([e1, e2], action) ==
              if action == e1.key then Some(e1.value) else if action == e2.key then Some(e2.value) else None
    {
      FindInTwo(e1, e2, action);
    }
    hide Find;
    assert rules[0] in rules && rules[1] in rules;
    assert Leads(rules, f, catalog, rules[0]) && Leads(rules, f, catalog, rules[1]);
  }

  // ---------------------------------------------------------------- in the terms of the matching rules

  function Matching(rules: seq<Rule>, f: FeatureVector): seq<Rule> {
    if rules == [] then []
    else Matching(Init(rules), f) + (if Last(rules).when(f) then [Last(rules)] else [])
  }

  function TotalScore(rules: seq<Rule>, action: string): real {
    if rules == [] then 0.0
    else TotalScore(Init(rules), action) + (if Last(rules).action == action then Last(rules).score else 0.0)
  }

  function TotalRisk(rules: seq<Rule>): real {
    if rules == [] then 0.0 else TotalRisk(Init(rules)) + Last(rules).riskDelta
  }

  function Names(rules: seq<Rule>): seq<string> {
    if rules == [] then [] else Names(Init(rules)) + [Last(rules).name]
  }

  /** The fold over all rules is the fold over those that match. */
  lemma {:induction false} FoldsOverMatching(rules: seq<Rule>, f: FeatureVector, action: string)
    ensures SumBy(rules, VoteFor(f, action)) == TotalScore(Matching(rules, f), action)
    ensures SumBy(rules, RiskOf(f)) == TotalRisk(Matching(rules, f))
    ensures Matched(rules, f) == Names(Matching(rules, f))
    ensures HasVote(rules, f, action) <==> exists r :: r in Matching(rules, f) && r.action == action
    ensures Votes(rules, f) == [] <==> Matching(rules, f) == []
  {
    if rules != [] {
      var before, r := Matching(Init(rules), f), Last(rules);
      FoldsOverMatching(Init(rules), f, action);
      HasVoteStep(rules, f, action);
      assert r.when(f) ==> Init(before + [r]) == before && Last(before + [r]) == r;
      assert before + [] == before;
      NotEmptied(Votes(Init(rules), f), r.action, ScoreOf(Votes(Init(rules), f), r.action) + r.score);
      hide HasVote, Assign, ScoreOf;
    }
  }

  lemma NotEmptied(d: Dict<real>, key: string, value: real)
    ensures Assign(d, key, value) != []
  {
  }

  /**
   * What the strategy makes of the matching rules: an action scores the sum of their scores for it, the risk
   * is the sum of their risks, capped and rounded, and they are named in order. Without any, the fallback
   * scores count: no action first when the intent is unclear, more information first otherwise.
   */
  lemma EvaluationOfMatches(rules: seq<Rule>, f: FeatureVector, catalog: Catalog, action: string)
    ensures var out, ms := Evaluation(rules, f, catalog), Matching(rules, f);
            && out.riskScore == Round4(Min(1.0, TotalRisk(ms)))
            && out.matched == (if ms == [] then ["fallback"] else Names(ms))
            && out.strategy == "rules" && out.mlFallback == None
            && Find(Scores(rules, f), action) ==
                 if ms != [] then
                   if exists r :: r in ms && r.action == action then Some(TotalScore(ms, action)) else None
                 else if action == "no_action" then Some(if f.intentConfidence < 0.3 then 0.5 else 0.3)
                 else if action == "request_more_info" then Some(if f.intentConfidence < 0.3 then 0.4 else 0.5)
                 else None
  {
    FoldsOverMatching(rules, f, action);
    VotesAreTotals(rules, f, action);
    FindInTwo(FallbackScores(f)[0], FallbackScores(f)[1], action);
    hide Candidates, Round4, Votes, SumBy, Matched, HasVote;
  }

  /** Whether a registered action may be shown to the user: everybody's fallbacks, and what is meant for them. */
  predicate ForUser(catalog: Catalog, userType: string, action: string) {
    && action in catalog
    && (action == "no_action" || action == "escalate_to_human" || action == "request_more_info"
        || userType == "" || userType == "any" || userType in catalog[action] || "any" in catalog[action])
  }

  /**
   * Exactly what is listed: the scored actions meant for the user, each with its score capped at 1 and rounded
   * to four digits, or `no_action` alone with confidence 0 if there is none.
   */
  lemma ListedExactly(rules: seq<Rule>, f: FeatureVector, catalog: Catalog, action: string)
    ensures var listed, scores := Find(Candidates(rules, f, catalog), action), Scores(rules, f);
            && (ForUser(catalog, f.userType, action) && Find(scores, action).Some? ==>
                  listed.Some? && var capped := Min(1.0, Find(scores, action).value);
                  capped - 0.00005 <= listed.value <= capped + 0.00005)
            && (listed.Some? ==>
                  || (ForUser(catalog, f.userType, action) && Find(scores, action).Some?)
                  || ((forall other :: !(ForUser(catalog, f.userType, other) && Find(scores, other).Some?))
                      && Candidates(rules, f, catalog) == [Entry("no_action", 0.0)]))
  {
    var ordered := SortDesc(Scores(rules, f));
    CandidatesAreShown(rules, f, catalog);
    ScoresDistinct(rules, f);
    SortDescSorts(Scores(rules, f));
    if Find(Scores(rules, f), action).Some? { Round4Close(Min(1.0, Find(Scores(rules, f), action).value)); }
    assert forall a :: IsShown(catalog, f.userType, a) <==> ForUser(catalog, f.userType, a);
    var shown := Shown(ordered, catalog, f.userType);
    hide SortDesc, Scores, Shown, Round4, IsShown, ForUser, Candidates;
    forall a
      ensures Find(shown, a).Some? <==> IsShown(catalog, f.userType, a) && Find(Scores(rules, f), a).Some?
      ensures Find(shown, a).Some? ==> shown != [] && Find(shown, a) == Some(Confidence(Find(ordered, a).value))
    {
      ShownFinds(ordered, catalog, f.userType, a);
      FindMember(shown, a);
    }
    if shown == [] {
      FindMember(shown, action);
    } else {
      assert Find(shown, shown[0].key).Some?;
    }
  }
}
