/**
 * Which decisions are replayed from the cache (decision/service.py over decision/cache.py), told from the
 * requests alone: over whole runs of a service without Redis, and within one batch.
 */
module DecisionHistory {
  import opened Basics
  import opened OrderedDicts
  import opened DecisionCaches
  import opened DecisionServing

  /** A request that gets a decision: valid, and for a strategy that exists. */
  predicate Answerable(q: Request) {
    Problem(q) == None && !q.override.MlOnly?
  }

  // ---------------------------------------------------------------- one request after another

  /** The cache of a service without Redis after a run of single requests; nothing there can fail. */
  function CacheAfter(d: Deployment, run: seq<Request>): Tiers<Response> {
    if run == [] then Tiers([], None)
    else if Problem(Last(run)).Some? then CacheAfter(d, Init(run))
    else AfterDecide(d, CacheAfter(d, Init(run)), Last(run), false, false)
  }

  /** The keys of the answerable requests after request i. */
  function KeysSince(d: Deployment, run: seq<Request>, i: nat): set<string>
    decreases |run|
  {
    if |run| <= i + 1 then {}
    else KeysSince(d, Init(run), i) + (if Answerable(Last(run)) then {KeyOf(d, Last(run))} else {})
  }

  /** Request i asked for this key, and fewer than `capacity` others were asked for since. */
  predicate AskedAt(d: Deployment, run: seq<Request>, k: string, i: nat) {
    && i < |run| && Answerable(run[i]) && KeyOf(d, run[i]) == k
    && |KeysSince(d, run, i) - {k}| < d.cache.capacity
  }

  /** Whether a key is held, and the keys asked for since it was. */
  function Asked(d: Deployment, run: seq<Request>, k: string): Option<set<string>> {
    if run == [] then None
    else
      var before := Asked(d, Init(run), k);
      if !Answerable(Last(run)) then before
      else if KeyOf(d, Last(run)) != k then Pushed(before, KeyOf(d, Last(run)), d.cache.capacity)
      else if d.cache.capacity == 0 then None
      else Some({})
  }

  /** What a run leaves in the cache is sound, and stays in memory. */
  ghost predicate Kept(d: Deployment, c: Tiers<Response>) {
    c.redis == None && Distinct(c.mem) && |c.mem| <= d.cache.capacity && Coherent(d.settings, d.key, c)
  }

  ghost predicate HeldAs(mem: Dict<Response>, k: string, asked: Option<set<string>>) {
    && (Find(mem, k).Some? <==> asked.Some?)
    && (asked.Some? ==> Later(mem, k) == asked.value)
  }

  lemma WriteHolds(capacity: nat, mem: Dict<Response>, k: string, value: Response, key: string,
                   asked: Option<set<string>>)
    requires Distinct(mem) && |mem| <= capacity && HeldAs(mem, key, asked)
    ensures var next := LruWrite(capacity, mem, k, value);
            && Distinct(next) && |next| <= capacity
            && HeldAs(next, key, if k != key then Pushed(asked, k, capacity)
                                 else if capacity == 0 then None else Some({}))
  {
    TouchHolds(capacity, mem, k, value, key);
    AppendDistinct(mem, k, value);
    NewestDistinct(Without(mem, k) + [Entry(k, value)], capacity);
    hide Later, Without, Newest;
  }

  /** A request the engine refuses finds nothing: its key holds no decision. */
  lemma RefusedFindsNothing(d: Deployment, c: Tiers<Response>, q: Request)
    requires Kept(d, c) && q.override.MlOnly?
    ensures Lookup(d.cache, c, KeyOf(d, q), false) == None
  {
    HitIsSane(d.settings, d.key, d.cache, c, KeyOf(d, q), false);
    OnlyMlFails(d.settings, q.features, q.override);
    hide Coherent, EngineEvaluate;
  }

  /** An answerable request writes its key, whether it hits or misses. */
  lemma DecideWrites(d: Deployment, c: Tiers<Response>, q: Request) returns (value: Response)
    requires d.settings.cacheEnabled && Kept(d, c) && !q.override.MlOnly?
    ensures AfterDecide(d, c, q, false, false) == Tiers(LruWrite(d.cache.capacity, c.mem, KeyOf(d, q), value), None)
  {
    hide Coherent, Decision, Distinct;
    var k := KeyOf(d, q);
    if LruRead(d.cache.capacity, c.mem, k).Some? {
      value := Find(c.mem, k).value;
      PromotionIsWrite(d.cache.capacity, c.mem, k);
    } else {
      value := Decision(d.settings, q);
    }
  }

  lemma DecideKeepsCoherent(d: Deployment, c: Tiers<Response>, q: Request)
    requires KeysDecide(d.settings, d.key) && Coherent(d.settings, d.key, c)
    ensures Coherent(d.settings, d.key, AfterDecide(d, c, q, false, false))
  {
    var looked := AfterRecall(d, c, q, false);
    GetKeepsCoherent(d.settings, d.key, d.cache, c, KeyOf(d, q), false);
    if !q.override.MlOnly? {
      var decision := EngineEvaluate(d.settings, q.features, q.override).value;
      FreshIsSane(d.settings, d.key, q, decision);
      SetKeepsCoherent(d.settings, d.key, d.cache, looked, KeyOf(d, q), Decision(d.settings, q), false);
    }
    hide Coherent, Sane, KeysDecide, EngineEvaluate, Materialize, Recalled, AfterGet, AfterSet;
  }

  lemma {:induction false} CacheHoldsAsked(d: Deployment, run: seq<Request>, k: string)
    requires d.settings.cacheEnabled && KeysDecide(d.settings, d.key)
    ensures Kept(d, CacheAfter(d, run)) && HeldAs(CacheAfter(d, run).mem, k, Asked(d, run, k))
  {
    if run != [] {
      var c, q := CacheAfter(d, Init(run)), Last(run);
      CacheHoldsAsked(d, Init(run), k);
      if Problem(q) == None {
        DecideKeepsCoherent(d, c, q);
        hide Coherent, KeysDecide, Problem, Distinct, HeldAs, LruWrite, KeyOf;
        if q.override.MlOnly? {
          RefusedFindsNothing(d, c, q);
          assert AfterDecide(d, c, q, false, false) == c;
        } else {
          hide AfterDecide;
          var value := DecideWrites(d, c, q);
          WriteHolds(d.cache.capacity, c.mem, KeyOf(d, q), value, k, Asked(d, Init(run), k));
        }
      }
    }
  }

  lemma {:induction false} AskedRecently(d: Deployment, run: seq<Request>, k: string) returns (i: nat)
    requires Asked(d, run, k).Some?
    ensures AskedAt(d, run, k, i) && KeysSince(d, run, i) - {k} == Asked(d, run, k).value
  {
    var q := Last(run);
    if Answerable(q) && KeyOf(d, q) == k {
      i := |run| - 1;
    } else {
      i := AskedRecently(d, Init(run), k);
      hide Answerable, KeyOf;
      assert KeysSince(d, run, i) - {k} == Asked(d, run, k).value;
    }
  }

  lemma {:induction false} RecentlyAsked(d: Deployment, run: seq<Request>, k: string, i: nat)
    requires AskedAt(d, run, k, i)
    ensures Asked(d, run, k).Some? && Asked(d, run, k).value <= KeysSince(d, run, i) - {k}
  {
    var q := Last(run);
    if i < |run| - 1 {
      SmallerSet(KeysSince(d, Init(run), i) - {k}, KeysSince(d, run, i) - {k});
      RecentlyAsked(d, Init(run), k, i);
      hide Answerable, KeyOf;
      if Answerable(q) && KeyOf(d, q) != k {
        SmallerSet(Asked(d, Init(run), k).value + {KeyOf(d, q)}, KeysSince(d, run, i) - {k});
      }
    }
  }

  /**
   * Without Redis, over any run of requests: one that can be answered is served from the cache exactly when
   * one with its key was, and fewer than `capacity` other keys have been asked for since. Either way the
   * answer is the decision for it.
   */
  lemma ServedFromCacheExactly(d: Deployment, run: seq<Request>, q: Request)
    requires d.settings.cacheEnabled && KeysDecide(d.settings, d.key) && Answerable(q)
    ensures var r := Decided(d, CacheAfter(d, run), q, false);
            && r.Ok? && Answers(d.settings, q, r.value)
            && (r.value.cached <==> exists i: nat :: AskedAt(d, run, KeyOf(d, q), i))
  {
    var c, k := CacheAfter(d, run), KeyOf(d, q);
    CacheHoldsAsked(d, run, k);
    DecisionAnswers(d.settings, q);
    HitIsSane(d.settings, d.key, d.cache, c, k, false);
    hide CacheAfter, Coherent, KeysDecide, Sane, Answers, Decision, AskedAt, Asked;
    if Lookup(d.cache, c, k, false).Some? {
      ReplayAnswers(d.settings, d.key, q, Find(c.mem, k).value);
    }
    if Asked(d, run, k).Some? {
      var i := AskedRecently(d, run, k);
    } else if exists i: nat :: AskedAt(d, run, k, i) {
      var i: nat :| AskedAt(d, run, k, i);
      RecentlyAsked(d, run, k, i);
    }
  }

  // ---------------------------------------------------------------- within one batch

  /** Without Redis a lookup moves an entry at most. */
  lemma RecallKeepsKeys(d: Deployment, c: Tiers<Response>, q: Request, up: bool, k: string)
    requires c.redis == None
    ensures var looked := AfterRecall(d, c, q, up);
            looked.redis == None && Find(looked.mem, k) == Find(c.mem, k)
  {
    MoveKeepsFinds(c.mem, KeyOf(d, q), k);
    hide Find, MoveToEnd, KeyOf, LruWrite;
  }

  lemma {:induction false} RecallsKeepKeys(d: Deployment, c: Tiers<Response>, items: seq<Request>, up: nat -> bool,
                                           n: nat, k: string)
    requires n <= |items| && c.redis == None
    ensures var looked := AfterRecalls(d, c, items, up, n);
            looked.redis == None && Find(looked.mem, k) == Find(c.mem, k)
  {
    if n > 0 {
      RecallsKeepKeys(d, c, items, up, n - 1, k);
      RecallKeepsKeys(d, AfterRecalls(d, c, items, up, n - 1), items[n - 1], up(n - 1), k);
      hide Find, Problem, AfterRecall;
    }
  }

  lemma MoveKeepsFinds(mem: Dict<Response>, k: string, key: string)
    ensures Find(MoveToEnd(mem, k), key) == Find(mem, key)
  {
    if Find(mem, k).Some? { LaterTouch(mem, k, Find(mem, k).value, key); }
  }

  /**
   * Without Redis, a valid item of a batch is served from the cache exactly when its key was there before the
   * batch: equal items of one batch are never answered from one another, and no item evicts another's answer.
   */
  lemma BatchServedExactly(d: Deployment, c: Tiers<Response>, items: seq<Request>, up: nat -> bool, i: nat)
    requires d.settings.cacheEnabled && c.redis == None && i < |items| && Problem(items[i]) == None
    ensures Early(d, c, items, up, i) ==
            match Lookup(d.cache, c, KeyOf(d, items[i]), false)
            case Some(stored) => Some(Replay(items[i], stored))
            case None => None
  {
    RecallsKeepKeys(d, c, items, up, i, KeyOf(d, items[i]));
    hide AfterRecalls, Replay;
  }
}
