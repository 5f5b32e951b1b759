/**
 * The report store's in-process backend (report/storage/memory.py): an LRU whose hits promote, whose
 * misses do not, and which can delete.
 */
module MemoryStorage {
  import opened Basics
  import opened OrderedDicts

  class MemoryStorageBackend<V> {
    const capacity: nat
    var store: Dict<V>

    ghost predicate Valid()
      reads this
    {
      capacity >= 1 && |store| <= capacity && Distinct(store)
    }

    constructor (capacity: int)
      ensures Valid() && store == [] && this.capacity == MaxInt(1, capacity)
    {
      this.capacity := MaxInt(1, capacity);
      store := [];
    }

    method Put(key: string, obj: V)
      requires Valid()
      modifies this
      ensures Valid() && store == Apply(capacity, old(store), Op.Put(key, obj))
    {
      TouchAppends(store, key, obj);
      WithoutSize(store, key);
      AppendDistinct(store, key, obj);
      store := Assign(store, key, obj);
      store := MoveToEnd(store, key);
      ghost var touched := store;
      while |store| > capacity
        invariant |touched| <= capacity + 1 && |store| <= |touched|
        invariant store == touched[|touched| - |store|..]
        invariant |store| >= MinInt(|touched|, capacity)
      {
        store := store[1..];
      }
    }

    /** None stands for ReportNotFoundError. */
    method Get(key: string) returns (obj: Option<V>)
      requires Valid()
      modifies this
      ensures Valid() && obj == Find(old(store), key)
      ensures store == Apply(capacity, old(store), Op.Get(key))
    {
      obj := Find(store, key);
      if obj == None {
        return;
      }
      AppendDistinct(store, key, obj.value);
      WithoutSize(store, key);
      store := MoveToEnd(store, key);
    }

    method Exists(key: string) returns (found: bool)
      requires Valid()
      ensures found <==> exists e :: e in store && e.key == key
    {
      FindMember(store, key);
      found := Find(store, key).Some?;
    }

    method Delete(key: string) returns (found: bool)
      requires Valid()
      modifies this
      ensures Valid() && (found <==> Find(old(store), key).Some?)
      ensures store == Apply(capacity, old(store), Op.Delete(key))
    {
      WithoutDistinct(store, key);
      WithoutSize(store, key);
      found := Find(store, key).Some?;
      store := Without(store, key);
    }
  }

  // ---------------------------------------------------------------- runs

  datatype Op<V> =
    | Put(key: string, value: V)
    | Get(key: string)
    | Delete(key: string)

  function Apply<V>(capacity: nat, d: Dict<V>, op: Op<V>): Dict<V> {
    match op
    case Put(key, value) => Newest(Without(d, key) + [Entry(key, value)], capacity)
    case Get(key) => MoveToEnd(d, key)
    case Delete(key) => Without(d, key)
  }

  function StoreAfter<V>(capacity: nat, ops: seq<Op<V>>): Dict<V> {
    if ops == [] then [] else Apply(capacity, StoreAfter(capacity, Init(ops)), Last(ops))
  }

  /** s can be obtained from l by leaving entries out. */
  predicate Subsequence<V(==)>(s: Dict<V>, l: Dict<V>) {
    if s == [] then true
    else if l == [] then false
    else if s[0] == l[0] then Subsequence(s[1..], l[1..])
    else Subsequence(s, l[1..])
  }

  lemma {:induction false} SubsequenceMembers<V>(s: Dict<V>, l: Dict<V>)
    requires Subsequence(s, l)
    ensures forall e :: e in s ==> e in l
    ensures |s| <= |l|
  {
    if s != [] {
      if s[0] == l[0] { SubsequenceMembers(s[1..], l[1..]); } else { SubsequenceMembers(s, l[1..]); }
      assert forall e :: e in s <==> e == s[0] || e in s[1..];
    }
  }

  lemma {:induction false} SubsequenceOfTail<V>(s: Dict<V>, l: Dict<V>)
    requires s != [] && Subsequence(s, l)
    ensures Subsequence(s[1..], l)
    decreases |l|, 0
  {
    if s[0] == l[0] {
      if s[1..] != [] && s[1] == l[0] {
        SubsequenceOfTail(s[1..], l[1..]);
      }
    } else {
      SubsequenceOfTail(s, l[1..]);
      SubsequenceLonger(s[1..], l[1..], l[0]);
    }
  }

  lemma {:induction false} SubsequenceLonger<V>(s: Dict<V>, l: Dict<V>, e: Entry<V>)
    requires Subsequence(s, l)
    ensures Subsequence(s, [e] + l)
    decreases |l|, 1
  {
    assert ([e] + l)[1..] == l;
    if s != [] && s[0] == e {
      SubsequenceOfTail(s, l);
    }
  }

  lemma {:induction false} SubsequenceWithout<V>(s: Dict<V>, l: Dict<V>, key: string)
    requires Subsequence(s, l)
    ensures Subsequence(Without(s, key), Without(l, key))
  {
    if s != [] {
      if s[0] == l[0] {
        SubsequenceWithout(s[1..], l[1..], key);
        if s[0].key != key {
          assert ([s[0]] + Without(s[1..], key))[1..] == Without(s[1..], key);
          assert ([l[0]] + Without(l[1..], key))[1..] == Without(l[1..], key);
        }
      } else {
        SubsequenceWithout(s, l[1..], key);
        if l[0].key != key {
          SubsequenceLonger(Without(s, key), Without(l[1..], key), l[0]);
        }
      }
    }
  }

  lemma {:induction false} SubsequenceAppend<V>(s: Dict<V>, l: Dict<V>, e: Entry<V>)
    requires Subsequence(s, l)
    ensures Subsequence(s + [e], l + [e])
  {
    if l == [] {
      assert s + [e] == [e] && l + [e] == [e] && Subsequence([e][1..], [e][1..]);
    } else if s == [] {
      SubsequenceAppend([], l[1..], e);
      assert [] + [e] == [e] && [l[0]] + (l[1..] + [e]) == l + [e];
      SubsequenceLonger([e], l[1..] + [e], l[0]);
    } else {
      assert (l + [e])[1..] == l[1..] + [e] && (s + [e])[1..] == s[1..] + [e];
      if s[0] == l[0] { SubsequenceAppend(s[1..], l[1..], e); } else { SubsequenceAppend(s, l[1..], e); }
    }
  }

  /** How a smaller and a larger store lie after the same run. */
  ghost predicate Nested<V>(c1: nat, s: Dict<V>, c2: nat, l: Dict<V>) {
    && Distinct(s) && Distinct(l)
    && |s| <= c1 && |l| <= c2 && |l| - |s| <= c2 - c1
    && Subsequence(s, l)
  }

  /** Both stores evict, or only one: whichever entry the larger one evicts, the smaller one does not keep. */
  lemma EvictNests<V>(c1: nat, s: Dict<V>, c2: nat, l: Dict<V>)
    requires 1 <= c1 <= c2 && Distinct(s) && Distinct(l) && Subsequence(s, l)
    requires 1 <= |s| <= c1 + 1 && |l| <= c2 + 1 && |l| - |s| <= c2 - c1
    ensures Nested(c1, Newest(s, c1), c2, Newest(l, c2))
  {
    SubsequenceMembers(s, l);
    if |l| > c2 {
      if s[0] != l[0] {
        SubsequenceOfTail(s, l[1..]);
      }
    } else if |s| > c1 {
      SubsequenceOfTail(s, l);
    }
  }

  lemma PutNests<V>(c1: nat, s: Dict<V>, c2: nat, l: Dict<V>, key: string, value: V)
    requires 1 <= c1 <= c2 && Nested(c1, s, c2, l)
    ensures Nested(c1, Apply(c1, s, Put(key, value)), c2, Apply(c2, l, Put(key, value)))
  {
    hide Without, Find, Subsequence, Newest, Distinct;
    var e := Entry(key, value);
    AppendDistinct(s, key, value);
    AppendDistinct(l, key, value);
    WithoutSize(s, key);
    WithoutSize(l, key);
    SubsequenceMembers(s, l);
    FindMember(s, key);
    FindMember(l, key);
    SubsequenceWithout(s, l, key);
    SubsequenceAppend(Without(s, key), Without(l, key), e);
    EvictNests(c1, Without(s, key) + [e], c2, Without(l, key) + [e]);
  }

  lemma GetNests<V>(c1: nat, s: Dict<V>, c2: nat, l: Dict<V>, key: string)
    requires c1 <= c2 && Nested(c1, s, c2, l)
    ensures Nested(c1, MoveToEnd(s, key), c2, MoveToEnd(l, key))
    ensures Find(s, key).Some? ==> Find(s, key) == Find(l, key)
  {
    SubsequenceMembers(s, l);
    FindMember(s, key);
    FindMember(l, key);
    WithoutSize(s, key);
    WithoutSize(l, key);
    SubsequenceWithout(s, l, key);
    if Find(l, key).Some? {
      var e := Entry(key, Find(l, key).value);
      AppendDistinct(l, key, e.value);
      if Find(s, key).Some? {
        FindUnique(l, Entry(key, Find(s, key).value));
        AppendDistinct(s, key, e.value);
        SubsequenceAppend(Without(s, key), Without(l, key), e);
      } else {
        SubsequenceExtend(s, Without(l, key), e);
      }
    }
  }

  lemma {:induction false} SubsequenceExtend<V>(s: Dict<V>, l: Dict<V>, e: Entry<V>)
    requires Subsequence(s, l)
    ensures Subsequence(s, l + [e])
  {
    if s != [] {
      assert (l + [e])[1..] == l[1..] + [e];
      if s[0] == l[0] { SubsequenceExtend(s[1..], l[1..], e); } else { SubsequenceExtend(s, l[1..], e); }
    }
  }

  lemma DeleteNests<V>(c1: nat, s: Dict<V>, c2: nat, l: Dict<V>, key: string)
    requires c1 <= c2 && Nested(c1, s, c2, l)
    ensures Nested(c1, Without(s, key), c2, Without(l, key))
  {
    SubsequenceMembers(s, l);
    FindMember(s, key);
    FindMember(l, key);
    WithoutSize(s, key);
    WithoutSize(l, key);
    WithoutDistinct(s, key);
    WithoutDistinct(l, key);
    SubsequenceWithout(s, l, key);
  }

  /**
   * Stack inclusion: after any common run, what the smaller store holds is, in the same order and with
   * the same values, part of what the larger one holds.
   */
  lemma {:induction false} LargerStoreIncludesSmaller<V>(c1: nat, c2: nat, ops: seq<Op<V>>)
    requires 1 <= c1 <= c2
    ensures Nested(c1, StoreAfter(c1, ops), c2, StoreAfter(c2, ops))
  {
    if ops != [] {
      LargerStoreIncludesSmaller(c1, c2, Init(ops));
      var s, l := StoreAfter(c1, Init(ops)), StoreAfter(c2, Init(ops));
      match Last(ops)
      case Put(key, value) => PutNests(c1, s, c2, l, key, value);
      case Get(key) => GetNests(c1, s, c2, l, key);
      case Delete(key) => DeleteNests(c1, s, c2, l, key);
    }
  }

  /** Enlarging the store never turns a hit into a miss, nor into a hit on something else. */
  lemma EnlargingKeepsHits<V>(c1: nat, c2: nat, ops: seq<Op<V>>, key: string)
    requires 1 <= c1 <= c2
    ensures Find(StoreAfter(c1, ops), key).Some? ==>
              Find(StoreAfter(c1, ops), key) == Find(StoreAfter(c2, ops), key)
  {
    LargerStoreIncludesSmaller(c1, c2, ops);
    GetNests(c1, StoreAfter(c1, ops), c2, StoreAfter(c2, ops), key);
  }

  /** The object last put under a key and not deleted since. */
  function Latest<V>(ops: seq<Op<V>>, key: string): Option<V> {
    if ops == [] then None
    else
      match Last(ops)
      case Put(k, value) => if k == key then Some(value) else Latest(Init(ops), key)
      case Get(_) => Latest(Init(ops), key)
      case Delete(k) => if k == key then None else Latest(Init(ops), key)
  }

  /** A store larger than the run forgets nothing. */
  lemma {:induction false} RoomyStoreIsComplete<V>(capacity: nat, ops: seq<Op<V>>, key: string)
    requires |ops| <= capacity
    ensures Find(StoreAfter(capacity, ops), key) == Latest(ops, key)
    ensures |StoreAfter(capacity, ops)| <= |ops| && Distinct(StoreAfter(capacity, ops))
  {
    if ops != [] {
      RoomyStoreIsComplete(capacity, Init(ops), key);
      var d, k := StoreAfter(capacity, Init(ops)), Last(ops).key;
      WithoutSize(d, k);
      WithoutDistinct(d, k);
      FindWithout(d, k, key);
      match Last(ops)
      case Put(_, value) =>
        AppendDistinct(d, k, value);
        FindAppend(Without(d, k), Entry(k, value), key);
      case Get(_) =>
        if Find(d, k).Some? {
          AppendDistinct(d, k, Find(d, k).value);
          FindAppend(Without(d, k), Entry(k, Find(d, k).value), key);
        }
      case Delete(_) =>
    }
  }

  /** Whatever its capacity, a hit returns the latest object put under the key and not deleted since. */
  lemma HitsAreLatest<V>(capacity: nat, ops: seq<Op<V>>, key: string)
    requires capacity >= 1
    ensures Find(StoreAfter(capacity, ops), key).Some? ==> Find(StoreAfter(capacity, ops), key) == Latest(ops, key)
  {
    EnlargingKeepsHits(capacity, capacity + |ops|, ops, key);
    RoomyStoreIsComplete(capacity + |ops|, ops, key);
  }

  // ---------------------------------------------------------------- exactly what is held

  /**
   * From the run alone: whether a key is held, and the keys touched since it was, those deleted again not
   * counting. A `put` touches its key, and so does a `get` of a key that is held.
   */
  ghost function Held<V>(capacity: nat, ops: seq<Op<V>>, key: string): Option<set<string>> {
    if ops == [] then None
    else
      var before := Held(capacity, Init(ops), key);
      match Last(ops)
      case Put(k, _) => if k == key then Some({}) else Pushed(before, k, capacity)
      case Get(k) =>
        if Held(capacity, Init(ops), k) == None then before
        else if k == key then Some({})
        else Pushed(before, k, capacity)
      case Delete(k) => if k == key || before == None then None else Some(before.value - {k})
  }

  lemma StoreIsSound<V>(capacity: nat, ops: seq<Op<V>>)
    requires capacity >= 1
    ensures Distinct(StoreAfter(capacity, ops)) && |StoreAfter(capacity, ops)| <= capacity
  {
    LargerStoreIncludesSmaller(capacity, capacity, ops);
  }

  /** A hit never evicts: promoting is a touch that fits. */
  lemma HitFits<V>(capacity: nat, d: Dict<V>, k: string)
    requires Distinct(d) && |d| <= capacity && Find(d, k).Some?
    ensures MoveToEnd(d, k) == Newest(Without(d, k) + [Entry(k, Find(d, k).value)], capacity)
  {
    WithoutSize(d, k);
  }

  /** The store holds exactly the keys the run says it holds, each with its latest object. */
  lemma {:induction false} StoreHoldsExactly<V>(capacity: nat, ops: seq<Op<V>>, key: string)
    requires capacity >= 1
    ensures var d, held := StoreAfter(capacity, ops), Held(capacity, ops, key);
            && Find(d, key) == (if held.Some? then Latest(ops, key) else None)
            && (Find(d, key).Some? <==> held.Some?)
            && (held.Some? ==> Later(d, key) == held.value)
  {
    if ops != [] {
      var d := StoreAfter(capacity, Init(ops));
      StoreHoldsExactly(capacity, Init(ops), key);
      StoreIsSound(capacity, Init(ops));
      match Last(ops)
      case Put(k, value) =>
        hide Later, Find, Without, Newest;
        TouchHolds(capacity, d, k, value, key);
      case Get(k) =>
        StoreHoldsExactly(capacity, Init(ops), k);
        hide Later, Find, Without, Newest;
        if Find(d, k).Some? {
          HitFits(capacity, d, k);
          TouchHolds(capacity, d, k, Find(d, k).value, key);
        } else {
          assert MoveToEnd(d, k) == d;
        }
      case Delete(k) =>
        FindWithout(d, k, key);
        if k != key { LaterWithout(d, k, key); }
        hide Later, Find, Without, Newest;
    }
  }

  /** The key that step k of the run touches: what it puts, or what it gets and finds. */
  function TouchedAt<V>(capacity: nat, ops: seq<Op<V>>, k: nat): set<string>
    requires k < |ops|
  {
    match ops[k]
    case Put(key, _) => {key}
    case Get(key) => if Find(StoreAfter(capacity, ops[..k]), key).Some? then {key} else {}
    case Delete(_) => {}
  }

  /** The keys touched after step i. */
  function TouchedSince<V>(capacity: nat, ops: seq<Op<V>>, i: nat): set<string>
    decreases |ops|
  {
    if |ops| <= i + 1 then {} else TouchedSince(capacity, Init(ops), i) + TouchedAt(capacity, ops, |ops| - 1)
  }

  /** What one more step does to a held key, by what it touches. */
  lemma HeldStep<V>(capacity: nat, ops: seq<Op<V>>, key: string)
    requires capacity >= 1 && ops != []
    ensures var t, before, after := TouchedAt(capacity, ops, |ops| - 1),
                                    Held(capacity, Init(ops), key), Held(capacity, ops, key);
            && (t == {} || exists k :: t == {k})
            && (t == {} && !Last(ops).Delete? ==> after == before)
            && (t == {key} ==> after == Some({}))
            && (forall k :: t == {k} && k != key ==> after == Pushed(before, k, capacity))
            && (Last(ops).Delete? ==>
                  t == {} && after == if Last(ops).key == key || before == None then None
                                      else Some(before.value - {Last(ops).key}))
  {
    assert ops[..|ops| - 1] == Init(ops);
    if Last(ops).Get? { StoreHoldsExactly(capacity, Init(ops), Last(ops).key); }
    hide StoreAfter, Latest, Pushed, Find, Later;
    var t := TouchedAt(capacity, ops, |ops| - 1);
    assert forall k :: t == {k} ==> k in t;
  }

  /**
   * Retention. A key that was put or hit at some step and not deleted since is still found, with its latest
   * object, as long as fewer than `capacity` other keys were put or hit since.
   */
  lemma {:induction false} RecentKeysAreKept<V>(capacity: nat, ops: seq<Op<V>>, key: string, i: nat)
    requires capacity >= 1 && i < |ops| && TouchedAt(capacity, ops, i) == {key}
    requires forall j :: i < j < |ops| ==> ops[j] != Op.Delete(key)
    requires |TouchedSince(capacity, ops, i) - {key}| < capacity
    ensures Find(StoreAfter(capacity, ops), key).Some? && Find(StoreAfter(capacity, ops), key) == Latest(ops, key)
    ensures Held(capacity, ops, key).Some?
            && Held(capacity, ops, key).value <= TouchedSince(capacity, ops, i) - {key}
  {
    StoreHoldsExactly(capacity, ops, key);
    HeldStep(capacity, ops, key);
    if i < |ops| - 1 {
      var before, since := Init(ops), TouchedSince(capacity, ops, i) - {key};
      TouchedBefore(capacity, ops, i);
      SmallerSet(TouchedSince(capacity, before, i) - {key}, since);
      hide StoreAfter, Latest, TouchedAt, Held;
      RecentKeysAreKept(capacity, before, key, i);
      var young, t := Held(capacity, before, key).value, TouchedAt(capacity, ops, |ops| - 1);
      assert Last(ops) != Op.Delete(key);
      if k :| t == {k} && k != key {
        assert k in t;
        SmallerSet(young + {k}, since);
      }
    }
  }

  lemma TouchedBefore<V>(capacity: nat, ops: seq<Op<V>>, i: nat)
    requires i < |ops| - 1
    ensures TouchedAt(capacity, Init(ops), i) == TouchedAt(capacity, ops, i)
  {
    assert ops[..i] == Init(ops)[..i];
  }

  /** And it is lost exactly when `capacity` others were, if nothing was deleted since its last touch. */
  lemma {:induction false} KeptExactly<V>(capacity: nat, ops: seq<Op<V>>, key: string, i: nat)
    requires capacity >= 1 && i < |ops| && TouchedAt(capacity, ops, i) == {key}
    requires key !in TouchedSince(capacity, ops, i) && forall j :: i < j < |ops| ==> !ops[j].Delete?
    ensures Find(StoreAfter(capacity, ops), key).Some? <==> |TouchedSince(capacity, ops, i)| < capacity
    ensures Held(capacity, ops, key).Some? <==> |TouchedSince(capacity, ops, i)| < capacity
    ensures Held(capacity, ops, key).Some? ==> Held(capacity, ops, key).value == TouchedSince(capacity, ops, i)
  {
    StoreHoldsExactly(capacity, ops, key);
    HeldStep(capacity, ops, key);
    if i < |ops| - 1 {
      var before, since := Init(ops), TouchedSince(capacity, ops, i);
      TouchedBefore(capacity, ops, i);
      SmallerSet(TouchedSince(capacity, before, i), since);
      hide StoreAfter, Latest, TouchedAt, Held;
      KeptExactly(capacity, before, key, i);
      var t := TouchedAt(capacity, ops, |ops| - 1);
      if k :| t == {k} {
        assert k in t && k != key;
      }
    }
  }
}
