/**
 * The decision service's two-tier cache (decision/cache.py): an LRU in memory in front of an optional
 * Redis, with one writer. Any Redis operation may fail, which the cache swallows, and Redis may drop any
 * of its keys between operations; `up` says whether an operation gets through. JSON is the identity on
 * stored values, and one that does not parse is a failed read.
 */
module DecisionCaches {
  import opened Basics
  import opened OrderedDicts

  /** Reading the memory tier: a hit is promoted. A capacity of 0 switches the tier off. */
  function LruRead<V>(capacity: nat, mem: Dict<V>, key: string): Option<V> {
    if capacity == 0 then None else Find(mem, key)
  }

  function LruWrite<V>(capacity: nat, mem: Dict<V>, key: string, value: V): Dict<V> {
    if capacity == 0 then mem else Newest(Without(mem, key) + [Entry(key, value)], capacity)
  }

  /** Both tiers; `redis` is None when there is no connection. */
  datatype Tiers<V> = Tiers(mem: Dict<V>, redis: Option<map<string, V>>)

  datatype Config = Config(capacity: nat, ttl: nat)

  function Lookup<V>(cfg: Config, c: Tiers<V>, key: string, up: bool): Option<V> {
    if LruRead(cfg.capacity, c.mem, key).Some? then LruRead(cfg.capacity, c.mem, key)
    else if c.redis.Some? && up then MapGet(c.redis.value, key)
    else None
  }

  function AfterGet<V>(cfg: Config, c: Tiers<V>, key: string, up: bool): Tiers<V> {
    if LruRead(cfg.capacity, c.mem, key).Some? then c.(mem := MoveToEnd(c.mem, key))
    else
      match Lookup(cfg, c, key, up)
      case Some(value) => c.(mem := LruWrite(cfg.capacity, c.mem, key, value))
      case None => c
  }

  function AfterSet<V>(cfg: Config, c: Tiers<V>, key: string, value: V, up: bool): Tiers<V> {
    Tiers(LruWrite(cfg.capacity, c.mem, key, value),
          if c.redis.Some? && cfg.ttl > 0 && up then Some(c.redis.value[key := value]) else c.redis)
  }

  function AfterClear<V>(c: Tiers<V>, up: bool): Tiers<V> {
    Tiers([], if c.redis.Some? && up then Some(map[]) else c.redis)
  }

  class DecisionCache<V> {
    const cfg: Config
    var mem: Dict<V>
    var redis: Option<map<string, V>>

    function Current(): Tiers<V>
      reads this
    {
      Tiers(mem, redis)
    }

    ghost predicate Valid()
      reads this
    {
      |mem| <= cfg.capacity && Distinct(mem)
    }

    constructor (memoryCapacity: int, ttlSeconds: int, connected: Option<map<string, V>>)
      ensures Valid() && cfg == Config(MaxInt(0, memoryCapacity), MaxInt(0, ttlSeconds))
      ensures Current() == Tiers([], connected)
    {
      cfg := Config(MaxInt(0, memoryCapacity), MaxInt(0, ttlSeconds));
      mem := [];
      redis := connected;
    }

    method LruSet(key: string, value: V)
      requires Valid()
      modifies this`mem
      ensures Valid() && mem == LruWrite(cfg.capacity, old(mem), key, value)
    {
      if cfg.capacity == 0 {
        return;
      }
      TouchAppends(mem, key, value);
      WithoutSize(mem, key);
      AppendDistinct(mem, key, value);
      mem := MoveToEnd(Assign(mem, key, value), key);
      ghost var touched := mem;
      while |mem| > cfg.capacity
        invariant |touched| <= cfg.capacity + 1 && |mem| <= |touched|
        invariant mem == touched[|touched| - |mem|..]
        invariant |mem| >= MinInt(|touched|, cfg.capacity)
      {
        mem := mem[1..];
      }
    }

    method LruGet(key: string) returns (hit: Option<V>)
      requires Valid()
      modifies this`mem
      ensures Valid() && hit == LruRead(cfg.capacity, old(mem), key)
      ensures mem == if hit.Some? then MoveToEnd(old(mem), key) else old(mem)
    {
      if cfg.capacity == 0 {
        return None;
      }
      hit := Find(mem, key);
      if hit.Some? {
        AppendDistinct(mem, key, hit.value);
        WithoutSize(mem, key);
        mem := MoveToEnd(mem, key);
      }
    }

    method Get(key: string, up: bool) returns (hit: Option<V>)
      requires Valid()
      modifies this
      ensures Valid() && hit == Lookup(cfg, old(Current()), key, up)
      ensures Current() == AfterGet(cfg, old(Current()), key, up)
    {
      hit := LruGet(key);
      if hit.Some? || redis == None || !up {
        return;
      }
      hit := MapGet(redis.value, key);
      if hit.Some? {
        LruSet(key, hit.value);
      }
    }

    method Set(key: string, value: V, up: bool)
      requires Valid()
      modifies this
      ensures Valid() && Current() == AfterSet(cfg, old(Current()), key, value, up)
    {
      LruSet(key, value);
      if redis.Some? && cfg.ttl > 0 && up {
        redis := Some(redis.value[key := value]);
      }
    }

    method Clear(up: bool)
      modifies this
      ensures Valid() && Current() == AfterClear(old(Current()), up)
    {
      mem := [];
      if redis.Some? && up {
        redis := Some(map[]);
      }
    }
  }

  // ---------------------------------------------------------------- runs

  /** One operation of the writer, or the loss of some keys on the Redis server. */
  datatype Op<V> =
    | Get(key: string, up: bool)
    | Set(key: string, value: V, up: bool)
    | Clear(up: bool)
    | Expire(keys: set<string>)

  function Apply<V>(cfg: Config, c: Tiers<V>, op: Op<V>): Tiers<V> {
    match op
    case Get(key, up) => AfterGet(cfg, c, key, up)
    case Set(key, value, up) => AfterSet(cfg, c, key, value, up)
    case Clear(up) => AfterClear(c, up)
    case Expire(keys) => c.(redis := if c.redis.Some? then Some(c.redis.value - keys) else None)
  }

  /** A cache that starts with an empty memory and whatever Redis holds, if there is one. */
  function TiersAfter<V>(cfg: Config, initial: Option<map<string, V>>, ops: seq<Op<V>>): Tiers<V> {
    if ops == [] then Tiers([], initial)
    else Apply(cfg, TiersAfter(cfg, initial, Init(ops)), Last(ops))
  }

  /** The value of the latest `set` of every key since the last `clear`, here or before the start. */
  function Latest<V>(initial: Option<map<string, V>>, ops: seq<Op<V>>): map<string, V> {
    if ops == [] then if initial.Some? then initial.value else map[]
    else
      match Last(ops)
      case Set(key, value, _) => Latest(initial, Init(ops))[key := value]
      case Clear(_) => map[]
      case Get(_, _) => Latest(initial, Init(ops))
      case Expire(_) => Latest(initial, Init(ops))
  }

  /**
   * Every key since the last `clear` that was set or read successfully, in the order of its last such
   * touch, with the value it had then.
   */
  function Touched<V>(cfg: Config, initial: Option<map<string, V>>, ops: seq<Op<V>>): Dict<V> {
    if ops == [] then []
    else
      var before := Touched(cfg, initial, Init(ops));
      match Last(ops)
      case Set(key, value, _) => Without(before, key) + [Entry(key, value)]
      case Get(key, up) =>
        (match Lookup(cfg, TiersAfter(cfg, initial, Init(ops)), key, up)
         case None => before
         case Some(value) => Without(before, key) + [Entry(key, value)])
      case Clear(_) => []
      case Expire(_) => before
  }

  /** Memory is the newest of what was touched. */
  ghost predicate Ordered<V>(cfg: Config, c: Tiers<V>, touched: Dict<V>) {
    Distinct(touched) && c.mem == Newest(touched, cfg.capacity)
  }

  /** Nothing in either tier, and nothing touched, is stale. */
  ghost predicate AllFresh<V(!new)>(c: Tiers<V>, touched: Dict<V>, latest: map<string, V>) {
    && (forall e :: e in touched ==> e.key in latest && latest[e.key] == e.value)
    && (c.redis.Some? ==> forall k :: k in c.redis.value ==> k in latest && latest[k] == c.redis.value[k])
  }

  predicate NoRedis<V(==)>(c: Tiers<V>) {
    c.redis.Some? ==> c.redis.value == map[]
  }

  /** Whether a `set` or `clear` reaches Redis, or needs to. */
  predicate Lands<V>(op: Op<V>) {
    match op
    case Set(_, _, up) => up
    case Clear(up) => up
    case Get(_, _) => true
    case Expire(_) => true
  }

  ghost predicate NoFailedWrite<V(!new)>(ops: seq<Op<V>>) {
    forall op :: op in ops ==> Lands(op)
  }

  lemma TouchKeepsMemory<V>(capacity: nat, touched: Dict<V>, key: string, value: V)
    requires Distinct(touched)
    ensures LruWrite(capacity, Newest(touched, capacity), key, value) ==
            Newest(Without(touched, key) + [Entry(key, value)], capacity)
  {
    if capacity > 0 { NewestAbsorbs(touched, key, value, capacity); }
  }

  /** Promoting a hit is writing it again: the tier cannot overflow. */
  lemma PromotionIsWrite<V>(capacity: nat, mem: Dict<V>, key: string)
    requires Distinct(mem) && |mem| <= capacity && Find(mem, key).Some?
    ensures MoveToEnd(mem, key) == LruWrite(capacity, mem, key, Find(mem, key).value)
  {
    WithoutSize(mem, key);
  }

  lemma NewestDistinct<V>(d: Dict<V>, n: nat)
    requires Distinct(d)
    ensures Distinct(Newest(d, n)) && |Newest(d, n)| <= n
    ensures forall e :: e in Newest(d, n) ==> e in d
  {
  }

  /** A hit of either kind is a write of what it returned. */
  lemma HitIsWrite<V>(cfg: Config, c: Tiers<V>, touched: Dict<V>, key: string, up: bool)
    requires Ordered(cfg, c, touched) && Lookup(cfg, c, key, up).Some?
    ensures AfterGet(cfg, c, key, up) == c.(mem := LruWrite(cfg.capacity, c.mem, key, Lookup(cfg, c, key, up).value))
  {
    NewestDistinct(touched, cfg.capacity);
    if LruRead(cfg.capacity, c.mem, key).Some? { PromotionIsWrite(cfg.capacity, c.mem, key); }
  }

  lemma {:induction false} RunsStayOrdered<V>(cfg: Config, initial: Option<map<string, V>>, ops: seq<Op<V>>)
    ensures Ordered(cfg, TiersAfter(cfg, initial, ops), Touched(cfg, initial, ops))
  {
    if ops != [] {
      RunsStayOrdered(cfg, initial, Init(ops));
      var c, touched := TiersAfter(cfg, initial, Init(ops)), Touched(cfg, initial, Init(ops));
      match Last(ops)
      case Get(key, up) =>
        if Lookup(cfg, c, key, up).Some? {
          HitIsWrite(cfg, c, touched, key, up);
          TouchKeepsMemory(cfg.capacity, touched, key, Lookup(cfg, c, key, up).value);
          AppendDistinct(touched, key, Lookup(cfg, c, key, up).value);
        } else {
          assert AfterGet(cfg, c, key, up) == c;
        }
      case Set(key, value, _) =>
        TouchKeepsMemory(cfg.capacity, touched, key, value);
        AppendDistinct(touched, key, value);
      case Clear(_) =>
      case Expire(_) =>
    }
  }

  /** The memory tier is exactly the `capacity` most recently touched keys, in the order of their last touch. */
  lemma MemoryHoldsLastTouched<V>(cfg: Config, initial: Option<map<string, V>>, ops: seq<Op<V>>)
    ensures TiersAfter(cfg, initial, ops).mem == Newest(Touched(cfg, initial, ops), cfg.capacity)
    ensures Distinct(Touched(cfg, initial, ops))
  {
    RunsStayOrdered(cfg, initial, ops);
  }

  // ---------------------------------------------------------------- freshness

  lemma TouchKeepsFresh<V(!new)>(touched: Dict<V>, latest: map<string, V>, key: string, value: V)
    requires forall e :: e in touched && e.key != key ==> e.key in latest && latest[e.key] == e.value
    requires key in latest && latest[key] == value
    ensures forall e :: e in Without(touched, key) + [Entry(key, value)] ==> e.key in latest && latest[e.key] == e.value
  {
    forall e | e in Without(touched, key)
      ensures e.key in latest && latest[e.key] == e.value
    {
      WithoutMember(touched, key, e);
    }
  }

  lemma HitIsLatest<V(!new)>(cfg: Config, c: Tiers<V>, touched: Dict<V>, latest: map<string, V>, key: string, up: bool)
    requires Ordered(cfg, c, touched) && AllFresh(c, touched, latest)
    ensures Lookup(cfg, c, key, up).Some? ==> MapGet(latest, key) == Lookup(cfg, c, key, up)
  {
    NewestDistinct(touched, cfg.capacity);
    FindMember(c.mem, key);
  }

  lemma StepKeepsFresh<V(!new)>(cfg: Config, initial: Option<map<string, V>>, ops: seq<Op<V>>)
    requires ops != []
    requires var c := TiersAfter(cfg, initial, Init(ops));
             && AllFresh(c, Touched(cfg, initial, Init(ops)), Latest(initial, Init(ops)))
             && (NoRedis(c) || (cfg.ttl > 0 && Lands(Last(ops))))
    ensures AllFresh(TiersAfter(cfg, initial, ops), Touched(cfg, initial, ops), Latest(initial, ops))
  {
    var c, touched := TiersAfter(cfg, initial, Init(ops)), Touched(cfg, initial, Init(ops));
    var latest := Latest(initial, Init(ops));
    RunsStayOrdered(cfg, initial, Init(ops));
    match Last(ops)
    case Get(key, up) =>
      HitIsLatest(cfg, c, touched, latest, key, up);
      if Lookup(cfg, c, key, up).Some? { TouchKeepsFresh(touched, latest, key, Lookup(cfg, c, key, up).value); }
    case Set(key, value, _) =>
      TouchKeepsFresh(touched, latest[key := value], key, value);
    case Clear(_) =>
    case Expire(_) =>
  }

  /** A Redis that starts empty stays empty when the ttl is zero. */
  lemma {:induction false} NoTtlNoRedis<V(!new)>(cfg: Config, initial: Option<map<string, V>>, ops: seq<Op<V>>)
    requires initial == None || (cfg.ttl == 0 && initial == Some(map[]))
    ensures NoRedis(TiersAfter(cfg, initial, ops))
    ensures initial == None ==> TiersAfter(cfg, initial, ops).redis == None
  {
    hide LruRead, LruWrite, Lookup;
    if ops != [] { NoTtlNoRedis(cfg, initial, Init(ops)); }
  }

  /** Nothing goes stale while every write lands, or while there is nothing to go stale in Redis. */
  lemma {:induction false} RunsStayFresh<V(!new)>(cfg: Config, initial: Option<map<string, V>>, ops: seq<Op<V>>)
    requires initial == None || (cfg.ttl == 0 && initial == Some(map[])) || (cfg.ttl > 0 && NoFailedWrite(ops))
    ensures AllFresh(TiersAfter(cfg, initial, ops), Touched(cfg, initial, ops), Latest(initial, ops))
  {
    if ops != [] {
      assert Last(ops) in ops && forall op :: op in Init(ops) ==> op in ops;
      RunsStayFresh(cfg, initial, Init(ops));
      if initial == None || (cfg.ttl == 0 && initial == Some(map[])) { NoTtlNoRedis(cfg, initial, Init(ops)); }
      StepKeepsFresh(cfg, initial, ops);
    }
  }

  /** A `get` after the run that hits returns the value of the latest `set` since the last `clear`. */
  predicate FreshHit<V(==)>(cfg: Config, initial: Option<map<string, V>>, ops: seq<Op<V>>, key: string) {
    var hit := Lookup(cfg, TiersAfter(cfg, initial, ops), key, true);
    hit.Some? ==> MapGet(Latest(initial, ops), key) == hit
  }

  /**
   * Freshness. Whatever the capacity, the evictions, the promotions, the keys Redis loses, the reads that
   * fail and what Redis held at the start, every hit is fresh, as long as writes land and have a ttl.
   */
  lemma HitsAreFresh<V(!new)>(
      cfg: Config, initial: Option<map<string, V>>, ops: seq<Op<V>>, key: string)
    requires initial == None || (cfg.ttl == 0 && initial == Some(map[])) || (cfg.ttl > 0 && NoFailedWrite(ops))
    ensures FreshHit(cfg, initial, ops, key)
  {
    RunsStayFresh(cfg, initial, ops);
    RunsStayOrdered(cfg, initial, ops);
    HitIsLatest(cfg, TiersAfter(cfg, initial, ops), Touched(cfg, initial, ops), Latest(initial, ops), key, true);
  }

  /** Fresh on every run on which all writes land. */
  ghost predicate AlwaysFresh<V(!new)>(cfg: Config, initial: Option<map<string, V>>) {
    forall ops: seq<Op<V>>, key: string :: NoFailedWrite(ops) ==> FreshHit(cfg, initial, ops, key)
  }

  /** Fresh on every run, whichever writes fail. */
  ghost predicate FreshDespiteFailures<V(!new)>(cfg: Config, initial: Option<map<string, V>>) {
    forall ops: seq<Op<V>>, key: string :: FreshHit(cfg, initial, ops, key)
  }

  /** A key other than all shorter ones. */
  function LongerKey(key: string, n: nat): string {
    key + seq(n, _ => 'x')
  }

  /** Writing one key, and then n others. */
  function Flood<V>(key: string, value: V, n: nat): seq<Op<V>> {
    if n == 0 then [Set(key, value, true)] else Flood(key, value, n - 1) + [Set(LongerKey(key, n), value, true)]
  }

  lemma {:induction false} FloodTouches<V(!new)>(
      cfg: Config, initial: Option<map<string, V>>, key: string, value: V, n: nat)
    ensures var touched := Touched(cfg, initial, Flood(key, value, n));
            && |touched| == n + 1 && touched[0] == Entry(key, value)
            && forall e :: e in touched ==> |e.key| <= |key| + n
  {
    var ops := Flood(key, value, n);
    if n == 0 {
      assert Init(ops) == [];
    } else {
      var before, k := Touched(cfg, initial, Init(ops)), LongerKey(key, n);
      assert Init(ops) == Flood(key, value, n - 1) && Last(ops) == Set(k, value, true);
      assert Touched(cfg, initial, ops) == Without(before, k) + [Entry(k, value)];
      FloodTouches(cfg, initial, key, value, n - 1);
      RunsStayOrdered(cfg, initial, Init(ops));
      hide Touched, TiersAfter, Flood, Without;
      FindMember(before, k);
      hide Find;
      WithoutSize(before, k);
    }
  }

  lemma {:induction false} FloodWrites<V(!new)>(
      cfg: Config, initial: Option<map<string, V>>, key: string, value: V, n: nat)
    requires cfg.ttl == 0
    ensures NoFailedWrite(Flood(key, value, n)) && MapGet(Latest(initial, Flood(key, value, n)), key) == Some(value)
    ensures TiersAfter(cfg, initial, Flood(key, value, n)).redis == initial
  {
    var ops := Flood(key, value, n);
    hide LruWrite, LruRead, Lookup;
    if n == 0 {
      assert Init(ops) == [];
    } else {
      assert Init(ops) == Flood(key, value, n - 1) && Last(ops) == Set(LongerKey(key, n), value, true);
      FloodWrites(cfg, initial, key, value, n - 1);
    }
  }

  /** With a ttl of zero, what Redis held before outlives every `set`. */
  lemma OldEntryOutlivesSet<V(!new)>(cfg: Config, initial: map<string, V>, key: string, value: V)
    requires cfg.ttl == 0 && key in initial && initial[key] != value
    ensures NoFailedWrite(Flood(key, value, cfg.capacity))
    ensures !FreshHit(cfg, Some(initial), Flood(key, value, cfg.capacity), key)
  {
    var ops := Flood(key, value, cfg.capacity);
    var touched := Touched(cfg, Some(initial), ops);
    FloodTouches(cfg, Some(initial), key, value, cfg.capacity);
    FloodWrites(cfg, Some(initial), key, value, cfg.capacity);
    MemoryHoldsLastTouched(cfg, Some(initial), ops);
    var mem := TiersAfter(cfg, Some(initial), ops).mem;
    assert mem == touched[1..];
    FindMember(mem, key);
    hide Touched, TiersAfter, Flood, Latest;
    assert Lookup(cfg, TiersAfter(cfg, Some(initial), ops), key, true) == Some(initial[key]);
  }

  /**
   * Exactly when every hit is fresh although no write fails: there is no Redis, or writes have a ttl, or
   * Redis held nothing at the start. (Two different values are needed to tell stale from fresh.)
   */
  lemma AlwaysFreshExactly<V(!new)>(cfg: Config, initial: Option<map<string, V>>, v: V, w: V)
    requires v != w
    ensures AlwaysFresh(cfg, initial) <==> initial == None || cfg.ttl > 0 || initial == Some(map[])
  {
    if initial == None || cfg.ttl > 0 || initial == Some(map[]) {
      forall ops: seq<Op<V>>, key: string | NoFailedWrite(ops)
        ensures FreshHit(cfg, initial, ops, key)
      {
        HitsAreFresh(cfg, initial, ops, key);
      }
    } else {
      var key :| key in initial.value;
      var other := if initial.value[key] == v then w else v;
      OldEntryOutlivesSet(cfg, initial.value, key, other);
      assert !FreshHit(cfg, initial, Flood(key, other, cfg.capacity), key);
    }
  }

  /** A `clear` that does not reach Redis leaves its entries to be served. */
  lemma FailedClearServesStale<V(!new)>(cfg: Config, initial: map<string, V>, key: string, value: V)
    ensures key in initial ==> !FreshHit(cfg, Some(initial), [Clear(false)], key)
    ensures cfg.ttl > 0 ==> !FreshHit(cfg, Some(initial), [Set(key, value, true), Clear(false)], key)
  {
    var one: seq<Op<V>> := [Clear(false)];
    var first: seq<Op<V>> := [Set(key, value, true)];
    var two := [Set(key, value, true), Clear(false)];
    hide LruWrite;
    assert Init(one) == [] && Init(first) == [] && Init(two) == first;
    assert TiersAfter(cfg, Some(initial), []) == Tiers([], Some(initial));
    assert Latest(Some(initial), one) == map[] && Latest(Some(initial), two) == map[];
    assert TiersAfter(cfg, Some(initial), one) == Tiers([], Some(initial));
    if cfg.ttl > 0 {
      assert TiersAfter(cfg, Some(initial), first).redis == Some(initial[key := value]);
      assert TiersAfter(cfg, Some(initial), two) == Tiers([], Some(initial[key := value]));
    }
  }

  /** Exactly when every hit is fresh whichever writes fail: there is no Redis, or it never holds anything. */
  lemma FreshDespiteFailuresExactly<V(!new)>(cfg: Config, initial: Option<map<string, V>>, v: V)
    ensures FreshDespiteFailures(cfg, initial) <==> initial == None || (cfg.ttl == 0 && initial == Some(map[]))
  {
    if initial == None || (cfg.ttl == 0 && initial == Some(map[])) {
      forall ops: seq<Op<V>>, key: string
        ensures FreshHit(cfg, initial, ops, key)
      {
        HitsAreFresh(cfg, initial, ops, key);
      }
    } else if cfg.ttl > 0 {
      FailedClearServesStale(cfg, initial.value, "k", v);
      assert !FreshHit(cfg, initial, [Set("k", v, true), Clear(false)], "k");
    } else {
      var key :| key in initial.value;
      FailedClearServesStale(cfg, initial.value, key, v);
      assert !FreshHit(cfg, initial, [Clear(false)], key);
    }
  }

  /** While Redis keeps its keys and takes every write, with a positive ttl, a key stays readable until cleared. */
  lemma {:induction false} RedisRemembers<V(!new)>(cfg: Config, initial: map<string, V>, ops: seq<Op<V>>)
    requires cfg.ttl > 0 && NoFailedWrite(ops) && forall op :: op in ops ==> !op.Expire?
    ensures TiersAfter(cfg, Some(initial), ops).redis == Some(Latest(Some(initial), ops))
  {
    if ops != [] {
      assert forall op :: op in Init(ops) ==> op in ops;
      assert Last(ops) in ops;
      RedisRemembers(cfg, initial, Init(ops));
    }
  }

  // ---------------------------------------------------------------- exactly what a get answers

  /** A key in memory: its value, and the keys touched since it was. */
  datatype Slot<V> = Slot(value: V, young: set<string>)

  /** The slot of a key after a touch of k with a value. */
  function Touch<V>(capacity: nat, slot: Option<Slot<V>>, key: string, k: string, value: V): Option<Slot<V>> {
    if capacity == 0 then None
    else if k == key then Some(Slot(value, {}))
    else if slot == None || Pushed(Some(slot.value.young), k, capacity) == None then None
    else Some(Slot(slot.value.value, slot.value.young + {k}))
  }

  /** What Redis holds, from the run alone. */
  function RedisContent<V>(cfg: Config, initial: Option<map<string, V>>, ops: seq<Op<V>>): Option<map<string, V>> {
    if ops == [] || initial == None then initial
    else
      var before := RedisContent(cfg, initial, Init(ops));
      if before == None then None
      else
        match Last(ops)
        case Set(k, value, up) => if up && cfg.ttl > 0 then Some(before.value[k := value]) else before
        case Clear(up) => if up then Some(map[]) else before
        case Get(_, _) => before
        case Expire(keys) => Some(before.value - keys)
  }

  /**
   * What memory holds of a key, from the run alone: a `set` touches its key, and so does a `get` that has an
   * answer; the touch that makes `capacity` other keys since its own evicts it.
   */
  ghost function Remembered<V>(cfg: Config, initial: Option<map<string, V>>, ops: seq<Op<V>>, key: string)
    : Option<Slot<V>>
    decreases |ops|, 0
  {
    if ops == [] then None
    else
      var before := Remembered(cfg, initial, Init(ops), key);
      match Last(ops)
      case Set(k, value, _) => Touch(cfg.capacity, before, key, k, value)
      case Get(k, up) =>
        (match Answer(cfg, initial, Init(ops), k, up)
         case None => before
         case Some(value) => Touch(cfg.capacity, before, key, k, value))
      case Clear(_) => None
      case Expire(_) => before
  }

  /** What a `get` after the run answers: what memory remembers, or else what a reachable Redis holds. */
  ghost function Answer<V>(cfg: Config, initial: Option<map<string, V>>, ops: seq<Op<V>>, key: string, up: bool)
    : Option<V>
    decreases |ops|, 1
  {
    var slot, redis := Remembered(cfg, initial, ops, key), RedisContent(cfg, initial, ops);
    if slot.Some? then Some(slot.value.value)
    else if up && redis.Some? then MapGet(redis.value, key)
    else None
  }

  lemma {:induction false} RedisIsContent<V>(cfg: Config, initial: Option<map<string, V>>, ops: seq<Op<V>>)
    ensures TiersAfter(cfg, initial, ops).redis == RedisContent(cfg, initial, ops)
  {
    hide LruWrite, Lookup, LruRead;
    if ops != [] { RedisIsContent(cfg, initial, Init(ops)); }
  }

  /** Memory holds a key exactly as its slot says. */
  ghost predicate InSlot<V>(mem: Dict<V>, key: string, slot: Option<Slot<V>>) {
    && (Find(mem, key) == if slot.Some? then Some(slot.value.value) else None)
    && (slot.Some? ==> Later(mem, key) == slot.value.young)
  }

  lemma WriteTouches<V>(capacity: nat, mem: Dict<V>, key: string, k: string, value: V, slot: Option<Slot<V>>)
    requires Distinct(mem) && InSlot(mem, key, slot) && |mem| <= capacity
    ensures InSlot(LruWrite(capacity, mem, k, value), key, Touch(capacity, slot, key, k, value))
  {
    TouchHolds(capacity, mem, k, value, key);
    hide Later, Without, Newest;
  }

  lemma {:induction false} MemoryIsRemembered<V>(
      cfg: Config, initial: Option<map<string, V>>, ops: seq<Op<V>>, key: string)
    ensures InSlot(TiersAfter(cfg, initial, ops).mem, key, Remembered(cfg, initial, ops, key))
    decreases |ops|, 0
  {
    if ops != [] {
      var c, touched := TiersAfter(cfg, initial, Init(ops)), Touched(cfg, initial, Init(ops));
      var slot := Remembered(cfg, initial, Init(ops), key);
      MemoryIsRemembered(cfg, initial, Init(ops), key);
      RunsStayOrdered(cfg, initial, Init(ops));
      NewestDistinct(touched, cfg.capacity);
      match Last(ops)
      case Set(k, value, _) => WriteTouches(cfg.capacity, c.mem, key, k, value, slot);
      case Get(k, up) =>
        GetsAnswerExactly(cfg, initial, Init(ops), k, up);
        if Lookup(cfg, c, k, up).Some? {
          HitIsWrite(cfg, c, touched, k, up);
          WriteTouches(cfg.capacity, c.mem, key, k, Lookup(cfg, c, k, up).value, slot);
        } else {
          assert AfterGet(cfg, c, k, up) == c;
        }
      case Clear(_) =>
      case Expire(_) =>
    }
  }

  /** On every run, with any failures and losses, a `get` answers exactly what the run alone says it does. */
  lemma {:induction false} GetsAnswerExactly<V>(
      cfg: Config, initial: Option<map<string, V>>, ops: seq<Op<V>>, key: string, up: bool)
    ensures Lookup(cfg, TiersAfter(cfg, initial, ops), key, up) == Answer(cfg, initial, ops, key, up)
    decreases |ops|, 1
  {
    MemoryIsRemembered(cfg, initial, ops, key);
    RedisIsContent(cfg, initial, ops);
    RunsStayOrdered(cfg, initial, ops);
    hide TiersAfter, Remembered, RedisContent, Later;
  }

  /** What step k touches and with which value: what it sets, or what it gets and finds. */
  function TouchAt<V>(cfg: Config, initial: Option<map<string, V>>, ops: seq<Op<V>>, k: nat): Option<Entry<V>>
    requires k < |ops|
  {
    match ops[k]
    case Set(key, value, _) => Some(Entry(key, value))
    case Get(key, up) =>
      (match Lookup(cfg, TiersAfter(cfg, initial, ops[..k]), key, up)
       case None => None
       case Some(value) => Some(Entry(key, value)))
    case Clear(_) => None
    case Expire(_) => None
  }

  /** The keys touched after step i. */
  function TouchedSince<V>(cfg: Config, initial: Option<map<string, V>>, ops: seq<Op<V>>, i: nat): set<string>
    decreases |ops|
  {
    if |ops| <= i + 1 then {}
    else
      TouchedSince(cfg, initial, Init(ops), i) +
      (match TouchAt(cfg, initial, ops, |ops| - 1) case None => {} case Some(e) => {e.key})
  }

  /** One more step, by what it touches. */
  lemma RememberedStep<V>(cfg: Config, initial: Option<map<string, V>>, ops: seq<Op<V>>, key: string)
    requires ops != []
    ensures var t, before := TouchAt(cfg, initial, ops, |ops| - 1), Remembered(cfg, initial, Init(ops), key);
            !Last(ops).Clear? ==>
              Remembered(cfg, initial, ops, key) ==
              if t == None then before else Touch(cfg.capacity, before, key, t.value.key, t.value.value)
  {
    assert ops[..|ops| - 1] == Init(ops);
    if Last(ops).Get? { GetsAnswerExactly(cfg, initial, Init(ops), Last(ops).key, Last(ops).up); }
    hide TiersAfter, Touch, Answer, Lookup;
  }

  lemma TouchBefore<V>(cfg: Config, initial: Option<map<string, V>>, ops: seq<Op<V>>, i: nat)
    requires i < |ops| - 1
    ensures TouchAt(cfg, initial, Init(ops), i) == TouchAt(cfg, initial, ops, i)
  {
    assert ops[..i] == Init(ops)[..i];
  }

  /** The slot of a key whose later touches are these. */
  function SlotAfter<V>(capacity: nat, value: V, since: set<string>): Option<Slot<V>> {
    if |since| < capacity then Some(Slot(value, since)) else None
  }

  lemma TouchCounts<V>(capacity: nat, value: V, since: set<string>, key: string, k: string, other: V)
    requires k != key
    ensures Touch(capacity, SlotAfter(capacity, value, since), key, k, other) == SlotAfter(capacity, value, since + {k})
  {
    SmallerSet(since, since + {k});
  }

  /**
   * Retention, exactly. With Redis absent or down, a `get` of a key that was set or hit, and not since, with
   * no `clear` in between, returns the value of that touch if fewer than `capacity` other keys were set or
   * hit since, and nothing otherwise.
   */
  lemma {:induction false} MemoryAnswersExactly<V>(
      cfg: Config, initial: Option<map<string, V>>, ops: seq<Op<V>>, key: string, i: nat)
    requires i < |ops| && TouchAt(cfg, initial, ops, i).Some? && TouchAt(cfg, initial, ops, i).value.key == key
    requires key !in TouchedSince(cfg, initial, ops, i) && forall j :: i < j < |ops| ==> !ops[j].Clear?
    ensures Lookup(cfg, TiersAfter(cfg, initial, ops), key, false) ==
            if |TouchedSince(cfg, initial, ops, i)| < cfg.capacity
            then Some(TouchAt(cfg, initial, ops, i).value.value) else None
    ensures Remembered(cfg, initial, ops, key) ==
            SlotAfter(cfg.capacity, TouchAt(cfg, initial, ops, i).value.value, TouchedSince(cfg, initial, ops, i))
  {
    GetsAnswerExactly(cfg, initial, ops, key, false);
    RememberedStep(cfg, initial, ops, key);
    if i < |ops| - 1 {
      var before, t := Init(ops), TouchAt(cfg, initial, ops, |ops| - 1);
      var value := TouchAt(cfg, initial, ops, i).value.value;
      TouchBefore(cfg, initial, ops, i);
      hide TiersAfter, TouchAt, Remembered, Lookup, RedisContent, Touch, SlotAfter;
      MemoryAnswersExactly(cfg, initial, before, key, i);
      if t.Some? {
        TouchCounts(cfg.capacity, value, TouchedSince(cfg, initial, before, i), key, t.value.key, t.value.value);
      }
      SlotAnswers(cfg.capacity, value, TouchedSince(cfg, initial, ops, i));
    } else {
      assert TouchedSince(cfg, initial, ops, i) == {};
      hide TiersAfter, TouchAt, Remembered, Lookup, RedisContent;
    }
  }

  lemma SlotAnswers<V>(capacity: nat, value: V, since: set<string>)
    ensures SlotAfter(capacity, value, since).Some? <==> |since| < capacity
    ensures |since| < capacity ==> SlotAfter(capacity, value, since).value.value == value
  {
  }

  /**
   * Completeness. With a positive ttl, while Redis is up, loses nothing and takes every write, a `get`
   * answers for exactly the keys set since the last `clear`, with their latest values.
   */
  lemma GetsAnswerEverySet<V(!new)>(cfg: Config, initial: map<string, V>, ops: seq<Op<V>>, key: string)
    requires cfg.ttl > 0 && NoFailedWrite(ops) && forall op :: op in ops ==> !op.Expire?
    ensures Lookup(cfg, TiersAfter(cfg, Some(initial), ops), key, true) == MapGet(Latest(Some(initial), ops), key)
  {
    RedisRemembers(cfg, initial, ops);
    HitsAreFresh(cfg, Some(initial), ops, key);
    hide TiersAfter, Latest;
  }
}
