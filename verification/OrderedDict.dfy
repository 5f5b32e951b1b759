/**
 * Python's `OrderedDict` as the two LRU stores use it: a sequence of entries with distinct keys, the
 * least recently touched entry first.
 */
module OrderedDicts {
  import opened Basics

  datatype Entry<V> = Entry(key: string, value: V)

  type Dict<V> = seq<Entry<V>>

  function Find<V>(d: Dict<V>, key: string): Option<V> {
    if d == [] then None else if d[0].key == key then Some(d[0].value) else Find(d[1..], key)
  }

  /** `pop(key, None)` */
  function Without<V>(d: Dict<V>, key: string): Dict<V> {
    if d == [] then [] else if d[0].key == key then Without(d[1..], key) else [d[0]] + Without(d[1..], key)
  }

  /** `d[key] = value`: an existing key keeps its place. */
  function Assign<V>(d: Dict<V>, key: string, value: V): Dict<V> {
    if d == [] then [Entry(key, value)]
    else if d[0].key == key then [Entry(key, value)] + d[1..]
    else [d[0]] + Assign(d[1..], key, value)
  }

  /** `move_to_end(key)` on a key that is present; otherwise nothing moves. */
  function MoveToEnd<V>(d: Dict<V>, key: string): Dict<V> {
    match Find(d, key)
    case None => d
    case Some(value) => Without(d, key) + [Entry(key, value)]
  }

  /** The n most recently touched entries. */
  function Newest<V>(d: Dict<V>, n: nat): Dict<V> {
    if |d| <= n then d else d[|d| - n..]
  }

  ghost predicate Distinct<V>(d: Dict<V>) {
    forall i, j :: 0 <= i < j < |d| ==> d[i].key != d[j].key
  }

  lemma {:induction false} FindMember<V>(d: Dict<V>, key: string)
    ensures Find(d, key) == None <==> forall e :: e in d ==> e.key != key
    ensures Find(d, key).Some? ==> Entry(key, Find(d, key).value) in d
  {
    if d != [] {
      FindMember(d[1..], key);
      assert forall e :: e in d <==> e == d[0] || e in d[1..];
    }
  }

  lemma {:induction false} FindUnique<V>(d: Dict<V>, e: Entry<V>)
    requires Distinct(d) && e in d
    ensures Find(d, e.key) == Some(e.value)
  {
    if d[0] == e {
    } else {
      assert e in d[1..];
      var i :| 0 <= i < |d| && d[i] == e;
      FindUnique(d[1..], e);
    }
  }

  lemma {:induction false} WithoutMember<V>(d: Dict<V>, key: string, e: Entry<V>)
    ensures e in Without(d, key) <==> e in d && e.key != key
  {
    if d != [] { WithoutMember(d[1..], key, e); }
  }

  lemma {:induction false} WithoutDistinct<V>(d: Dict<V>, key: string)
    requires Distinct(d)
    ensures Distinct(Without(d, key))
    ensures forall i :: 0 <= i < |Without(d, key)| ==> Without(d, key)[i].key != key
  {
    if d != [] {
      WithoutDistinct(d[1..], key);
      var rest := Without(d[1..], key);
      forall j | 0 <= j < |rest|
        ensures rest[j].key != d[0].key
      {
        WithoutMember(d[1..], key, rest[j]);
      }
    }
  }

  lemma {:induction false} WithoutSize<V>(d: Dict<V>, key: string)
    requires Distinct(d)
    ensures |Without(d, key)| == |d| - (if Find(d, key).Some? then 1 else 0)
    ensures Find(d, key) == None ==> Without(d, key) == d
  {
    if d != [] {
      if d[0].key == key {
        FindMember(d[1..], key);
        assert Find(d[1..], key) == None by { assert forall i :: 0 < i < |d| ==> d[i].key != key; }
      }
      WithoutSize(d[1..], key);
    }
  }

  lemma WithoutCons<V>(e: Entry<V>, d: Dict<V>, key: string)
    ensures Without([e] + d, key) == (if e.key == key then [] else [e]) + Without(d, key)
  {
    assert ([e] + d)[1..] == d;
  }

  lemma ConcatAssociates<V>(d1: Dict<V>, d2: Dict<V>, d3: Dict<V>)
    ensures d1 + (d2 + d3) == (d1 + d2) + d3
  {
  }

  lemma {:induction false} WithoutConcat<V>(d1: Dict<V>, d2: Dict<V>, key: string)
    ensures Without(d1 + d2, key) == Without(d1, key) + Without(d2, key)
  {
    if d1 == [] {
      assert d1 + d2 == d2;
    } else {
      hide Without;
      var e, rest := d1[0], d1[1..];
      assert d1 == [e] + rest;
      WithoutConcat(rest, d2, key);
      ConcatAssociates([e], rest, d2);
      WithoutCons(e, rest, key);
      WithoutCons(e, rest + d2, key);
      ConcatAssociates(if e.key == key then [] else [e], Without(rest, key), Without(d2, key));
    }
  }

  /** Writing a key and moving it to the end leaves exactly one entry for it, the newest. */
  lemma TouchAppends<V>(d: Dict<V>, key: string, value: V)
    requires Distinct(d)
    ensures MoveToEnd(Assign(d, key, value), key) == Without(d, key) + [Entry(key, value)]
    ensures |Assign(d, key, value)| <= |d| + 1
  {
    AssignFinds(d, key, value);
    AssignSize(d, key, value);
  }

  lemma {:induction false} AssignFinds<V>(d: Dict<V>, key: string, value: V)
    requires Distinct(d)
    ensures Find(Assign(d, key, value), key) == Some(value)
    ensures Without(Assign(d, key, value), key) == Without(d, key)
  {
    if d != [] && d[0].key != key {
      AssignFinds(d[1..], key, value);
    } else if d == [] {
      assert Without([Entry(key, value)], key) == [];
    } else {
      assert ([Entry(key, value)] + d[1..])[1..] == d[1..];
    }
  }

  lemma {:induction false} AssignSize<V>(d: Dict<V>, key: string, value: V)
    ensures |Assign(d, key, value)| <= |d| + 1
  {
    if d != [] { AssignSize(d[1..], key, value); }
  }

  lemma AppendDistinct<V>(d: Dict<V>, key: string, value: V)
    requires Distinct(d)
    ensures Distinct(Without(d, key) + [Entry(key, value)])
  {
    WithoutDistinct(d, key);
  }

  lemma NewestOfConcat<V>(d1: Dict<V>, d2: Dict<V>, n: nat)
    requires n <= |d2|
    ensures Newest(d1 + d2, n) == Newest(d2, n)
  {
  }

  /** Keeping only the newest n entries before touching a key makes no difference to the newest n after. */
  lemma NewestAbsorbs<V>(d: Dict<V>, key: string, value: V, n: nat)
    requires Distinct(d) && n > 0
    ensures Newest(Without(Newest(d, n), key) + [Entry(key, value)], n) ==
            Newest(Without(d, key) + [Entry(key, value)], n)
  {
    if |d| > n {
      hide Without;
      var older, newer := d[..|d| - n], d[|d| - n..];
      assert d == older + newer;
      WithoutConcat(older, newer, key);
      WithoutSize(newer, key);
      NewestOfConcat(Without(older, key), Without(newer, key) + [Entry(key, value)], n);
      assert Without(older, key) + Without(newer, key) + [Entry(key, value)] ==
             Without(older, key) + (Without(newer, key) + [Entry(key, value)]);
    }
  }

  lemma {:induction false} FindAppend<V>(d: Dict<V>, e: Entry<V>, key: string)
    ensures Find(d + [e], key) ==
            if Find(d, key).Some? then Find(d, key) else if e.key == key then Some(e.value) else None
  {
    if d == [] {
      assert d + [e] == [e];
    } else {
      FindAppend(d[1..], e, key);
      assert (d + [e])[1..] == d[1..] + [e];
    }
  }

  lemma {:induction false} FindWithout<V>(d: Dict<V>, k: string, key: string)
    ensures Find(Without(d, k), key) == if k == key then None else Find(d, key)
  {
    if d != [] {
      FindWithout(d[1..], k, key);
      if d[0].key != k {
        assert ([d[0]] + Without(d[1..], k))[1..] == Without(d[1..], k);
      }
    }
  }

  // ---------------------------------------------------------------- what lies behind a key

  /** The keys touched more recently than this one. */
  function Later<V>(d: Dict<V>, key: string): set<string> {
    if d == [] then {} else if d[0].key == key then KeySet(d[1..]) else Later(d[1..], key)
  }

  function KeySet<V>(d: Dict<V>): set<string> {
    if d == [] then {} else {d[0].key} + KeySet(d[1..])
  }

  lemma {:induction false} KeySetMembers<V>(d: Dict<V>, key: string)
    ensures key in KeySet(d) <==> Find(d, key).Some?
  {
    if d != [] { KeySetMembers(d[1..], key); }
  }

  lemma {:induction false} KeySetSize<V>(d: Dict<V>)
    requires Distinct(d)
    ensures |KeySet(d)| == |d|
  {
    if d != [] {
      KeySetSize(d[1..]);
      KeySetMembers(d[1..], d[0].key);
      FindMember(d[1..], d[0].key);
    }
  }

  lemma {:induction false} KeySetAppend<V>(d: Dict<V>, e: Entry<V>)
    ensures KeySet(d + [e]) == KeySet(d) + {e.key}
  {
    if d == [] {
      assert d + [e] == [e] && KeySet([e][1..]) == {};
    } else {
      KeySetAppend(d[1..], e);
      assert (d + [e])[1..] == d[1..] + [e];
    }
  }

  lemma {:induction false} KeySetWithout<V>(d: Dict<V>, key: string)
    ensures KeySet(Without(d, key)) == KeySet(d) - {key}
  {
    if d != [] {
      KeySetWithout(d[1..], key);
      if d[0].key != key {
        assert ([d[0]] + Without(d[1..], key))[1..] == Without(d[1..], key);
      }
    }
  }

  lemma {:induction false} LaterAppend<V>(d: Dict<V>, e: Entry<V>, key: string)
    ensures Later(d + [e], key) == if Find(d, key).Some? then Later(d, key) + {e.key} else {}
  {
    if d == [] {
      assert d + [e] == [e] && [e][1..] == [] && KeySet([e][1..]) == {} && Later([e][1..], key) == {};
    } else {
      LaterAppend(d[1..], e, key);
      KeySetAppend(d[1..], e);
      assert (d + [e])[1..] == d[1..] + [e];
    }
  }

  lemma {:induction false} LaterWithout<V>(d: Dict<V>, k: string, key: string)
    requires k != key
    ensures Later(Without(d, k), key) == Later(d, key) - {k}
  {
    if d != [] {
      LaterWithout(d[1..], k, key);
      KeySetWithout(d[1..], k);
      if d[0].key != k {
        assert ([d[0]] + Without(d[1..], k))[1..] == Without(d[1..], k);
      }
    }
  }

  /** Touching another key puts it behind this one; touching this one leaves nothing behind it. */
  lemma LaterTouch<V>(d: Dict<V>, k: string, value: V, key: string)
    ensures var next := Without(d, k) + [Entry(k, value)];
            && Find(next, key) == (if k == key then Some(value) else Find(d, key))
            && Later(next, key) == if k != key && Find(d, key).Some? then Later(d, key) + {k} else {}
  {
    FindWithout(d, k, key);
    FindAppend(Without(d, k), Entry(k, value), key);
    LaterAppend(Without(d, k), Entry(k, value), key);
    if k != key { LaterWithout(d, k, key); }
    hide Later, Find, Without;
  }

  lemma {:induction false} LaterBound<V>(d: Dict<V>, key: string)
    requires Distinct(d) && Find(d, key).Some?
    ensures |Later(d, key)| <= |d| - 1 && (d[0].key == key ==> |Later(d, key)| == |d| - 1)
    ensures d[0].key != key ==> |Later(d, key)| < |d| - 1
  {
    if d[0].key == key {
      KeySetSize(d[1..]);
    } else {
      LaterBound(d[1..], key);
    }
  }

  /** Dropping the oldest entries drops exactly the keys with too many later ones, and changes nothing else. */
  lemma {:induction false} NewestKeeps<V>(d: Dict<V>, n: nat, key: string)
    requires Distinct(d)
    ensures Find(Newest(d, n), key) == if Find(d, key).Some? && |Later(d, key)| < n then Find(d, key) else None
    ensures Find(Newest(d, n), key).Some? ==> Later(Newest(d, n), key) == Later(d, key)
  {
    if Find(d, key).Some? { LaterBound(d, key); }
    if |d| > n {
      assert Newest(d, n) == Newest(d[1..], n);
      NewestKeeps(d[1..], n, key);
      if d[0].key == key {
        KeySetSize(d[1..]);
        FindMember(d[1..], key);
      }
    }
  }

  /** One more key is touched: the one it is the `capacity`-th for is evicted. */
  function Pushed(young: Option<set<string>>, k: string, capacity: nat): Option<set<string>> {
    if young == None || |young.value + {k}| >= capacity then None else Some(young.value + {k})
  }

  /** A touch, with the eviction it may cause, leaves every key with its later ones. */
  lemma TouchHolds<V>(capacity: nat, d: Dict<V>, k: string, value: V, key: string)
    requires Distinct(d)
    ensures var next := Newest(Without(d, k) + [Entry(k, value)], capacity);
            && (k == key && capacity >= 1 ==> Find(next, key) == Some(value) && Later(next, key) == {})
            && (k != key ==>
                  var young := if Find(d, key).Some? then Pushed(Some(Later(d, key)), k, capacity) else None;
                  && Find(next, key) == (if young.Some? then Find(d, key) else None)
                  && (young.Some? ==> Later(next, key) == young.value))
  {
    LaterTouch(d, k, value, key);
    AppendDistinct(d, k, value);
    NewestKeeps(Without(d, k) + [Entry(k, value)], capacity, key);
    hide Later, Find, Without, Newest;
  }

  lemma SmallerSet(a: set<string>, b: set<string>)
    requires a <= b
    ensures |a| <= |b|
  {
    assert b == a + (b - a);
  }
}
