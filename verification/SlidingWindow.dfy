/**
 * The input manager's per-user limiter (managers/input_manager.py, `AsyncRateLimiter`). It keeps, for
 * every key, the admissions of the last window: a sliding log, although its own comment calls it a
 * fixed window.
 */
module SlidingWindows {
  import opened Basics

  datatype Limit = Limit(maxRequests: int, window: int)

  /** The times later than the cutoff, in order. */
  function Recent(log: seq<real>, cutoff: real): seq<real> {
    if log == [] then []
    else Recent(Init(log), cutoff) + (if Last(log) > cutoff then [Last(log)] else [])
  }

  function Cutoff(l: Limit, now: real): real {
    now - l.window as real
  }

  predicate Allows(l: Limit, log: seq<real>, now: real) {
    l.maxRequests <= 0 || |Recent(log, Cutoff(l, now))| < l.maxRequests
  }

  function AfterAllow(l: Limit, log: seq<real>, now: real): seq<real> {
    if l.maxRequests <= 0 then log
    else Recent(log, Cutoff(l, now)) + (if Allows(l, log, now) then [now] else [])
  }

  function LogOf(buckets: map<string, seq<real>>, key: string): seq<real> {
    if key in buckets then buckets[key] else []
  }

  class AsyncRateLimiter {
    const limit: Limit
    var buckets: map<string, seq<real>>

    constructor (maxRequests: int, windowSeconds: int)
      ensures limit == Limit(maxRequests, windowSeconds) && buckets == map[]
    {
      limit := Limit(maxRequests, windowSeconds);
      buckets := map[];
    }

    method Allow(key: string, now: real) returns (ok: bool)
      modifies this`buckets
      ensures ok == Allows(limit, LogOf(old(buckets), key), now)
      ensures LogOf(buckets, key) == AfterAllow(limit, LogOf(old(buckets), key), now)
      ensures forall k :: k != key ==> LogOf(buckets, k) == LogOf(old(buckets), k)
    {
      if limit.maxRequests <= 0 {
        return true;
      }
      var cutoff := now - limit.window as real;
      if key !in buckets {
        buckets := buckets[key := []];
      }
      buckets := buckets[key := Recent(buckets[key], cutoff)];
      if |buckets[key]| >= limit.maxRequests {
        return false;
      }
      buckets := buckets[key := buckets[key] + [now]];
      return true;
    }
  }

  // ---------------------------------------------------------------- runs on one key

  function LogAfter(l: Limit, calls: seq<real>): seq<real> {
    if calls == [] then [] else AfterAllow(l, LogAfter(l, Init(calls)), Last(calls))
  }

  /** The instants of all calls that were let through. */
  function Admissions(l: Limit, calls: seq<real>): seq<real> {
    if calls == [] then []
    else Admissions(l, Init(calls)) + (if Allows(l, LogAfter(l, Init(calls)), Last(calls)) then [Last(calls)] else [])
  }

  /** How many of the times lie in (lo, hi]. */
  function CountIn(times: seq<real>, lo: real, hi: real): nat {
    if times == [] then 0
    else CountIn(Init(times), lo, hi) + (if lo < Last(times) <= hi then 1 else 0)
  }

  ghost predicate Chronological(times: seq<real>) {
    forall i, j :: 0 <= i <= j < |times| ==> times[i] <= times[j]
  }

  lemma RecentSnoc(log: seq<real>, t: real, cutoff: real)
    ensures Recent(log + [t], cutoff) == Recent(log, cutoff) + (if t > cutoff then [t] else [])
  {
    assert Init(log + [t]) == log;
  }

  /** Evicting early loses nothing a later cutoff would keep. */
  lemma {:induction false} RecentTwice(log: seq<real>, c1: real, c2: real)
    requires c1 <= c2
    ensures Recent(Recent(log, c1), c2) == Recent(log, c2)
  {
    if log != [] {
      RecentTwice(Init(log), c1, c2);
      if Last(log) > c1 { RecentSnoc(Recent(Init(log), c1), Last(log), c2); }
      else { assert Recent(log, c1) == Recent(Init(log), c1); }
    }
  }

  lemma {:induction false} RecentIsCount(times: seq<real>, lo: real, hi: real)
    requires forall t :: t in times ==> t <= hi
    ensures |Recent(times, lo)| == CountIn(times, lo, hi)
  {
    if times != [] {
      assert Last(times) in times && forall t :: t in Init(times) ==> t in times;
      RecentIsCount(Init(times), lo, hi);
    }
  }

  lemma {:induction false} CountShrinks(times: seq<real>, lo: real, hi: real, lo': real, hi': real)
    requires lo <= lo' && forall t :: t in times ==> t <= hi
    ensures CountIn(times, lo', hi') <= CountIn(times, lo, hi)
  {
    if times != [] {
      assert Last(times) in times && forall t :: t in Init(times) ==> t in times;
      CountShrinks(Init(times), lo, hi, lo', hi');
    }
  }

  lemma {:induction false} AdmissionsAreCalls(l: Limit, calls: seq<real>)
    ensures forall t :: t in Admissions(l, calls) ==> t in calls
  {
    if calls != [] { AdmissionsAreCalls(l, Init(calls)); }
  }

  lemma PrefixOrdered(calls: seq<real>, now: real)
    requires Chronological(calls + [now])
    ensures Chronological(calls) && forall t :: t in calls ==> t <= now
  {
    var run := calls + [now];
    assert run[|calls|] == now && forall i :: 0 <= i < |calls| ==> run[i] == calls[i];
  }

  /** At a call no earlier than all before it, the evicted log is the admissions of the window. */
  lemma {:induction false} LogIsWindow(l: Limit, calls: seq<real>, now: real)
    requires l.maxRequests > 0 && Chronological(calls + [now])
    ensures Recent(LogAfter(l, calls), Cutoff(l, now)) == Recent(Admissions(l, calls), Cutoff(l, now))
    ensures |Recent(LogAfter(l, calls), Cutoff(l, now))| == CountIn(Admissions(l, calls), Cutoff(l, now), now)
  {
    PrefixOrdered(calls, now);
    AdmissionsAreCalls(l, calls);
    RecentIsCount(Admissions(l, calls), Cutoff(l, now), now);
    if calls != [] {
      hide Chronological, CountIn;
      var before, last := Init(calls), Last(calls);
      assert calls == before + [last] && last in calls;
      LogIsWindow(l, before, last);
      assert LogAfter(l, calls) == AfterAllow(l, LogAfter(l, before), last);
      hide LogAfter, Recent;
      var kept := Recent(LogAfter(l, before), Cutoff(l, last));
      RecentTwice(Admissions(l, before), Cutoff(l, last), Cutoff(l, now));
      if Allows(l, LogAfter(l, before), last) {
        RecentSnoc(kept, last, Cutoff(l, now));
        RecentSnoc(Admissions(l, before), last, Cutoff(l, now));
      } else {
        assert LogAfter(l, calls) == kept;
        assert Admissions(l, calls) == Admissions(l, before);
      }
    }
  }

  /** A call is refused exactly when `maxRequests` admissions already lie in its own window. */
  lemma RefusedIffWindowIsFull(l: Limit, calls: seq<real>, now: real)
    requires l.maxRequests > 0 && Chronological(calls + [now])
    ensures !Allows(l, LogAfter(l, calls), now) <==>
            CountIn(Admissions(l, calls), now - l.window as real, now) == l.maxRequests
  {
    hide Recent, LogAfter, CountIn, Admissions;
    LogIsWindow(l, calls, now);
    PrefixOrdered(calls, now);
    NoWindowOverflows(l, calls, now);
  }

  /** However the window is placed, at most `maxRequests` admissions fall into it. */
  lemma {:induction false} NoWindowOverflows(l: Limit, calls: seq<real>, x: real)
    requires l.maxRequests > 0 && Chronological(calls)
    ensures CountIn(Admissions(l, calls), x - l.window as real, x) <= l.maxRequests
  {
    if calls != [] {
      var before, last := Init(calls), Last(calls);
      NoWindowOverflows(l, before, x);
      assert calls == before + [last];
      if Allows(l, LogAfter(l, before), last) {
        WindowWithNewest(l, before, last, x);
        assert Init(Admissions(l, calls)) == Admissions(l, before);
      } else {
        assert Admissions(l, calls) == Admissions(l, before);
      }
    }
  }

  /** Just before `last` is admitted, any window that will contain it has room for it. */
  lemma WindowWithNewest(l: Limit, before: seq<real>, last: real, x: real)
    requires l.maxRequests > 0 && Chronological(before + [last])
    requires Allows(l, LogAfter(l, before), last)
    ensures x - l.window as real < last <= x ==>
              CountIn(Admissions(l, before), x - l.window as real, x) < l.maxRequests
  {
    hide Recent, LogAfter, CountIn, Admissions;
    LogIsWindow(l, before, last);
    PrefixOrdered(before, last);
    AdmissionsAreCalls(l, before);
    if x - l.window as real < last <= x {
      CountShrinks(Admissions(l, before), Cutoff(l, last), last, x - l.window as real, x);
    }
  }

  /** What is stored for a key never exceeds `maxRequests` times. */
  lemma {:induction false} LogStaysSmall(l: Limit, calls: seq<real>)
    requires l.maxRequests > 0
    ensures |LogAfter(l, calls)| <= l.maxRequests
  {
    if calls != [] {
      LogStaysSmall(l, Init(calls));
      RecentShorter(LogAfter(l, Init(calls)), Cutoff(l, Last(calls)));
    }
  }

  lemma {:induction false} RecentShorter(log: seq<real>, cutoff: real)
    ensures |Recent(log, cutoff)| <= |log|
  {
    if log != [] { RecentShorter(Init(log), cutoff); }
  }

  // ---------------------------------------------------------------- many keys in one limiter

  datatype KeyedCall = KeyedCall(key: string, at: real)

  /** The limiter's dictionary after a run over many keys. */
  function BucketsAfter(l: Limit, run: seq<KeyedCall>): map<string, seq<real>> {
    if run == [] then map[]
    else
      var before, c := BucketsAfter(l, Init(run)), Last(run);
      if l.maxRequests <= 0 then before else before[c.key := AfterAllow(l, LogOf(before, c.key), c.at)]
  }

  function CallsOf(run: seq<KeyedCall>, key: string): seq<real> {
    if run == [] then []
    else CallsOf(Init(run), key) + (if Last(run).key == key then [Last(run).at] else [])
  }

  /** Keys never interfere: the log of a key, and so its next verdict, is what its own calls alone produce. */
  lemma {:induction false} KeysAreIsolated(l: Limit, run: seq<KeyedCall>, key: string)
    ensures LogOf(BucketsAfter(l, run), key) == LogAfter(l, CallsOf(run, key))
  {
    if run != [] {
      hide AfterAllow;
      var calls := CallsOf(Init(run), key);
      KeysAreIsolated(l, Init(run), key);
      if Last(run).key == key {
        assert Init(calls + [Last(run).at]) == calls;
        UnlimitedKeepsLog(l, LogAfter(l, calls), Last(run).at);
      } else {
        assert calls + [] == calls;
      }
    }
  }

  lemma UnlimitedKeepsLog(l: Limit, log: seq<real>, now: real)
    ensures l.maxRequests <= 0 ==> AfterAllow(l, log, now) == log
  {
  }

  ghost predicate InOrder(run: seq<KeyedCall>) {
    forall i, j :: 0 <= i <= j < |run| ==> run[i].at <= run[j].at
  }

  lemma OneMoreInOrder(calls: seq<real>, t: real, now: real)
    requires Chronological(calls + [t]) && t <= now
    ensures Chronological(calls + [now]) && Chronological(calls + [t] + [now])
  {
    PrefixOrdered(calls, t);
    assert forall i :: 0 <= i < |calls| ==> calls[i] in calls;
  }

  lemma RunPrefixInOrder(run: seq<KeyedCall>)
    requires InOrder(run) && run != []
    ensures InOrder(Init(run)) && forall c :: c in Init(run) ==> c.at <= Last(run).at
  {
    assert forall i :: 0 <= i < |run| - 1 ==> run[i].at <= run[|run| - 1].at;
  }

  lemma {:induction false} OwnCallsInOrder(run: seq<KeyedCall>, key: string, now: real)
    requires InOrder(run) && forall c :: c in run ==> c.at <= now
    ensures Chronological(CallsOf(run, key) + [now])
  {
    if run != [] {
      var before, last := CallsOf(Init(run), key), Last(run);
      assert last in run && CallsOf(run, key) == before + (if last.key == key then [last.at] else []);
      hide Chronological, CallsOf;
      RunPrefixInOrder(run);
      OwnCallsInOrder(Init(run), key, last.at);
      OneMoreInOrder(before, last.at, now);
      if last.key != key { assert before + [] == before; }
    }
  }

  /** So in any run over many keys, a call is refused exactly when its own key's window is full. */
  lemma RefusedIffOwnWindowIsFull(l: Limit, run: seq<KeyedCall>, key: string, now: real)
    requires l.maxRequests > 0 && InOrder(run) && forall c :: c in run ==> c.at <= now
    ensures !Allows(l, LogOf(BucketsAfter(l, run), key), now) <==>
            CountIn(Admissions(l, CallsOf(run, key)), now - l.window as real, now) == l.maxRequests
  {
    KeysAreIsolated(l, run, key);
    OwnCallsInOrder(run, key, now);
    hide Recent, LogAfter, CountIn, Admissions, BucketsAfter, CallsOf;
    RefusedIffWindowIsFull(l, CallsOf(run, key), now);
  }

  /** And at most `maxRequests` admissions of a key fall into any window, however the keys are mixed. */
  lemma NoOwnWindowOverflows(l: Limit, run: seq<KeyedCall>, key: string, x: real)
    requires l.maxRequests > 0 && InOrder(run)
    ensures CountIn(Admissions(l, CallsOf(run, key)), x - l.window as real, x) <= l.maxRequests
  {
    if run != [] {
      RunPrefixInOrder(run);
      OwnCallsInOrder(run, key, Last(run).at);
      PrefixOrdered(CallsOf(run, key), Last(run).at);
    }
    NoWindowOverflows(l, CallsOf(run, key), x);
  }

  /** Nor does the list stored for a key ever exceed it. */
  lemma OwnLogStaysSmall(l: Limit, run: seq<KeyedCall>, key: string)
    requires l.maxRequests > 0
    ensures |LogOf(BucketsAfter(l, run), key)| <= l.maxRequests
  {
    KeysAreIsolated(l, run, key);
    LogStaysSmall(l, CallsOf(run, key));
  }

  /** A limit that is not positive limits nothing. */
  lemma UnlimitedAllowsAll(l: Limit, run: seq<KeyedCall>, key: string, now: real)
    requires l.maxRequests <= 0
    ensures Allows(l, LogOf(BucketsAfter(l, run), key), now)
  {
  }
}
