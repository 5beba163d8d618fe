/**
 The result cache of internal/insight/factory/memcache.go as a list of entries, most recently used first,
 and what that list satisfies over every trace of calls. Clock readings are arguments of the calls.
 */
module LruModel {
  import opened Options

  datatype Entry<R> = Entry(key: string, result: R, expires: int)

  function Keys<R>(s: seq<Entry<R>>): set<string> {
    set i | 0 <= i < |s| :: s[i].key
  }

  ghost predicate Distinct<R>(s: seq<Entry<R>>) {
    forall i, j :: 0 <= i < j < |s| ==> s[i].key != s[j].key
  }

  function Find<R>(s: seq<Entry<R>>, key: string): (found: Option<Entry<R>>)
    ensures found.Some? <==> key in Keys(s)
    ensures found.Some? ==> found.value in s && found.value.key == key
  {
    if s == [] then None else if s[0].key == key then Some(s[0]) else
      assert Keys(s) == {s[0].key} + Keys(s[1..]);
      Find(s[1..], key)
  }

  function Without<R>(s: seq<Entry<R>>, key: string): seq<Entry<R>> {
    if s == [] then [] else if s[0].key == key then Without(s[1..], key) else [s[0]] + Without(s[1..], key)
  }

  /** The list after Get: an expired entry is dropped, a live one moves to the front. */
  function AfterGet<R>(s: seq<Entry<R>>, key: string, now: int): seq<Entry<R>> {
    match Find(s, key)
    case None => s
    case Some(e) => if now < e.expires then [e] + Without(s, key) else Without(s, key)
  }

  function Answer<R>(s: seq<Entry<R>>, key: string, now: int): Option<R> {
    match Find(s, key)
    case None => None
    case Some(e) => if now < e.expires then Some(e.result) else None
  }

  function Evict<R>(s: seq<Entry<R>>, size: int): seq<Entry<R>> {
    if |s| > size && |s| > 0 then s[..|s| - 1] else s
  }

  /** The list after Set: only a key that was not there can push the last entry out. */
  function AfterSet<R>(s: seq<Entry<R>>, size: int, ttl: int, key: string, result: R, now: int): seq<Entry<R>> {
    var e := Entry(key, result, now + ttl);
    if key in Keys(s) then [e] + Without(s, key) else Evict([e] + s, size)
  }

  // ---------------------------------------------------------------------------------------------
  // Traces.

  datatype Call<R> = Get(key: string, now: int) | Set(key: string, result: R, now: int)

  function After<R>(s: seq<Entry<R>>, size: int, ttl: int, call: Call<R>): seq<Entry<R>> {
    match call
    case Get(key, now) => AfterGet(s, key, now)
    case Set(key, result, now) => AfterSet(s, size, ttl, key, result, now)
  }

  /** The list of a fresh cache after the calls, in order. */
  function Run<R>(calls: seq<Call<R>>, size: int, ttl: int): seq<Entry<R>> {
    if calls == [] then []
    else After(Run(calls[..|calls| - 1], size, ttl), size, ttl, calls[|calls| - 1])
  }

  /** A cache of non-positive size drops each entry at once. */
  function Capacity(size: int): nat {
    if size < 0 then 0 else size
  }

  // ---------------------------------------------------------------------------------------------
  // Lists.

  lemma KeysPrepend<R>(e: Entry<R>, s: seq<Entry<R>>)
    ensures Keys([e] + s) == {e.key} + Keys(s)
  {
    var t := [e] + s;
    assert t[0].key == e.key;
    forall i | 0 <= i < |s|
      ensures s[i].key in Keys(t)
    {
      assert t[i + 1] == s[i];
    }
  }

  lemma PrependDistinct<R>(e: Entry<R>, s: seq<Entry<R>>)
    requires Distinct(s) && e.key !in Keys(s)
    ensures Distinct([e] + s)
  {
    assert forall i :: 0 <= i < |s| ==> s[i].key in Keys(s);
  }

  lemma {:induction false} WithoutKeys<R>(s: seq<Entry<R>>, key: string)
    ensures Keys(Without(s, key)) == Keys(s) - {key}
  {
    if s == [] {
    } else {
      WithoutKeys(s[1..], key);
      var rest := Without(s[1..], key);
      assert s == [s[0]] + s[1..];
      KeysPrepend(s[0], s[1..]);
      KeysPrepend(s[0], rest);
    }
  }

  lemma {:induction false} WithoutDistinct<R>(s: seq<Entry<R>>, key: string)
    requires Distinct(s)
    ensures Distinct(Without(s, key))
    ensures |Without(s, key)| == if key in Keys(s) then |s| - 1 else |s|
    ensures key !in Keys(s) ==> Without(s, key) == s
    ensures s != [] && s[|s| - 1].key == key ==> Without(s, key) == s[..|s| - 1]
  {
    if s == [] {
    } else {
      var rest := Without(s[1..], key);
      assert s == [s[0]] + s[1..];
      WithoutDistinct(s[1..], key);
      KeysPrepend(s[0], s[1..]);
      assert Distinct([s[0]] + rest) by {
        WithoutKeys(s[1..], key);
        assert forall i :: 0 < i < |s| ==> s[i] == s[1..][i - 1];
        PrependDistinct(s[0], rest);
      }
      if |s| > 1 {
        assert s[..|s| - 1] == [s[0]] + s[1..][..|s| - 2];
      }
    }
  }

  lemma {:induction false} FindDistinct<R>(s: seq<Entry<R>>, i: nat)
    requires Distinct(s) && i < |s|
    ensures Find(s, s[i].key) == Some(s[i])
  {
    if i == 0 {
    } else {
      FindDistinct(s[1..], i - 1);
    }
  }

  lemma {:induction false} WithoutMembers<R>(s: seq<Entry<R>>, key: string, e: Entry<R>)
    ensures e in Without(s, key) <==> e in s && e.key != key
  {
    if s == [] {
    } else {
      assert s == [s[0]] + s[1..];
      WithoutMembers(s[1..], key, e);
    }
  }

  lemma MoveKeepsShape<R>(s: seq<Entry<R>>, e: Entry<R>)
    requires Distinct(s)
    ensures Distinct([e] + Without(s, e.key))
    ensures |Without(s, e.key)| == if e.key in Keys(s) then |s| - 1 else |s|
    ensures e.key !in Keys(s) ==> Without(s, e.key) == s
  {
    WithoutDistinct(s, e.key);
    WithoutKeys(s, e.key);
    PrependDistinct(e, Without(s, e.key));
  }

  /** Every call keeps the keys distinct and the list within its capacity. */
  lemma StepKeepsShape<R>(s: seq<Entry<R>>, size: int, ttl: int, call: Call<R>)
    requires Distinct(s) && |s| <= Capacity(size)
    ensures Distinct(After(s, size, ttl, call)) && |After(s, size, ttl, call)| <= Capacity(size)
  {
    match call
    case Get(key, now) =>
      WithoutDistinct(s, key);
      if key in Keys(s) {
        MoveKeepsShape(s, Find(s, key).value);
      }
    case Set(key, result, now) =>
      MoveKeepsShape(s, Entry(key, result, now + ttl));
  }

  lemma {:induction false} RunShape<R>(calls: seq<Call<R>>, size: int, ttl: int)
    ensures Distinct(Run(calls, size, ttl)) && |Run(calls, size, ttl)| <= Capacity(size)
  {
    if calls == [] {
    } else {
      var n := |calls| - 1;
      RunShape(calls[..n], size, ttl);
      StepKeepsShape(Run(calls[..n], size, ttl), size, ttl, calls[n]);
    }
  }

  // ---------------------------------------------------------------------------------------------
  // Inclusion: a smaller cache holds a subsequence of what a larger one holds.

  /** The entries of s whose keys are in `keys`, in order. */
  function Keep<R>(s: seq<Entry<R>>, keys: set<string>): seq<Entry<R>> {
    if s == [] then [] else if s[0].key in keys then [s[0]] + Keep(s[1..], keys) else Keep(s[1..], keys)
  }

  lemma {:induction false} KeepWithout<R>(s: seq<Entry<R>>, keys: set<string>, key: string)
    ensures Keep(Without(s, key), keys) == Without(Keep(s, keys), key) == Keep(s, keys - {key})
  {
    if s == [] {
    } else {
      KeepWithout(s[1..], keys, key);
    }
  }

  lemma {:induction false} KeepLast<R>(s: seq<Entry<R>>, keys: set<string>)
    requires s != []
    ensures var n := |s| - 1;
            Keep(s, keys) == Keep(s[..n], keys) + if s[n].key in keys then [s[n]] else []
  {
    if |s| == 1 {
    } else {
      KeepLast(s[1..], keys);
      assert s[1..][..|s| - 2] == s[..|s| - 1][1..];
    }
  }

  lemma {:induction false} KeepKeys<R>(s: seq<Entry<R>>, keys: set<string>)
    ensures Keys(Keep(s, keys)) == Keys(s) * keys
  {
    if s == [] {
    } else {
      KeepKeys(s[1..], keys);
      KeysPrepend(s[0], s[1..]);
      assert s == [s[0]] + s[1..];
      KeysPrepend(s[0], Keep(s[1..], keys));
    }
  }

  lemma {:induction false} KeepFind<R>(s: seq<Entry<R>>, keys: set<string>, key: string)
    requires key in keys
    ensures Find(Keep(s, keys), key) == Find(s, key)
  {
    if s == [] {
    } else {
      KeepFind(s[1..], keys, key);
      var rest := Keep(s[1..], keys);
      assert ([s[0]] + rest)[1..] == rest;
    }
  }

  /** small is what large holds for small's keys: a subsequence in recency order, values and expiries included. */
  ghost predicate Included<R>(small: seq<Entry<R>>, large: seq<Entry<R>>) {
    Distinct(small) && Distinct(large) && small == Keep(large, Keys(small))
  }

  lemma IncludedKeys<R>(small: seq<Entry<R>>, large: seq<Entry<R>>)
    requires Included(small, large)
    ensures Keys(small) <= Keys(large)
    ensures forall key :: key in Keys(small) ==> Find(small, key) == Find(large, key)
  {
    KeepKeys(large, Keys(small));
    forall key | key in Keys(small)
      ensures Find(small, key) == Find(large, key)
    {
      KeepFind(large, Keys(small), key);
    }
  }

  lemma IncludedWithout<R>(small: seq<Entry<R>>, large: seq<Entry<R>>, key: string)
    requires Included(small, large)
    ensures Included(Without(small, key), Without(large, key))
    ensures key !in Keys(small) ==> Included(small, Without(large, key))
  {
    WithoutDistinct(small, key);
    WithoutDistinct(large, key);
    WithoutKeys(small, key);
    KeepWithout(large, Keys(small), key);
    KeepWithout(large, Keys(small) - {key}, key);
    assert Keys(small) - {key} - {key} == Keys(small) - {key};
  }

  lemma {:induction false} KeepMore<R>(s: seq<Entry<R>>, keys: set<string>, key: string)
    requires key !in Keys(s)
    ensures Keep(s, keys + {key}) == Keep(s, keys)
  {
    if s == [] {
    } else {
      KeysPrepend(s[0], s[1..]);
      assert s == [s[0]] + s[1..];
      KeepMore(s[1..], keys, key);
    }
  }

  lemma IncludedPrepend<R>(small: seq<Entry<R>>, large: seq<Entry<R>>, e: Entry<R>)
    requires Included(small, large) && e.key !in Keys(large)
    ensures Included([e] + small, [e] + large)
  {
    IncludedKeys(small, large);
    PrependDistinct(e, small);
    PrependDistinct(e, large);
    KeysPrepend(e, small);
    KeepMore(large, Keys(small), e.key);
    assert {e.key} + Keys(small) == Keys(small) + {e.key};
    assert ([e] + large)[1..] == large;
  }

  lemma IncludedSkip<R>(small: seq<Entry<R>>, large: seq<Entry<R>>, e: Entry<R>)
    requires Included(small, large) && e.key !in Keys(large)
    ensures Included(small, [e] + large)
  {
    IncludedKeys(small, large);
    PrependDistinct(e, large);
    assert ([e] + large)[1..] == large;
  }

  /** Dropping the last entry of the small list, and then possibly of the large one. */
  lemma IncludedDropLast<R>(small: seq<Entry<R>>, large: seq<Entry<R>>)
    requires Included(small, large) && small != []
    ensures large != []
    ensures Included(small[..|small| - 1], large)
    ensures Included(small[..|small| - 1], large[..|large| - 1])
  {
    var m, n := |small| - 1, |large| - 1;
    var key := small[m].key;
    WithoutDistinct(small, key);
    WithoutKeys(small, key);
    KeepWithout(large, Keys(small), key);
    assert Included(small[..m], large);
    KeepLast(large, Keys(small));
    KeepLast(large, Keys(small[..m]));
    assert large[n].key in Keys(small) ==> large[n] == small[m];
    assert forall i :: 0 <= i < m ==> small[i].key != small[m].key;
  }

  lemma GetKeepsInclusion<R>(small: seq<Entry<R>>, large: seq<Entry<R>>, key: string, now: int)
    requires Included(small, large)
    ensures Included(AfterGet(small, key, now), AfterGet(large, key, now))
    ensures |AfterGet(large, key, now)| - |AfterGet(small, key, now)| <= |large| - |small|
  {
    IncludedKeys(small, large);
    IncludedWithout(small, large, key);
    WithoutDistinct(small, key);
    WithoutDistinct(large, key);
    WithoutKeys(large, key);
    if key in Keys(small) {
      IncludedPrepend(Without(small, key), Without(large, key), Find(large, key).value);
    } else if key in Keys(large) {
      IncludedSkip(small, Without(large, key), Find(large, key).value);
    }
  }

  lemma IncludedMove<R>(small: seq<Entry<R>>, large: seq<Entry<R>>, e: Entry<R>)
    requires Included(small, large)
    ensures Included([e] + Without(small, e.key), [e] + Without(large, e.key))
  {
    IncludedWithout(small, large, e.key);
    WithoutKeys(large, e.key);
    IncludedPrepend(Without(small, e.key), Without(large, e.key), e);
  }

  lemma SetKeepsInclusion<R>(small: seq<Entry<R>>, large: seq<Entry<R>>, k: int, n: int, ttl: int, key: string,
      result: R, now: int)
    requires Included(small, large) && k <= n
    requires |small| <= Capacity(k) && |large| <= Capacity(n)
    requires |large| - |small| <= Capacity(n) - Capacity(k)
    ensures var small', large' := AfterSet(small, k, ttl, key, result, now), AfterSet(large, n, ttl, key, result, now);
            Included(small', large') && |large'| - |small'| <= Capacity(n) - Capacity(k)
  {
    var e := Entry(key, result, now + ttl);
    IncludedKeys(small, large);
    MoveKeepsShape(small, e);
    MoveKeepsShape(large, e);
    IncludedMove(small, large, e);
    if key !in Keys(small) && |small| + 1 > k {
      IncludedDropLast([e] + Without(small, key), [e] + Without(large, key));
    }
  }

  /**
   The stack property: on one trace of calls and clock readings, the cache of the smaller size holds a
   subsequence of what the cache of the larger size holds, and misses at most the difference in capacity.
   */
  lemma {:induction false} StackInclusion<R>(calls: seq<Call<R>>, k: int, n: int, ttl: int)
    requires k <= n
    ensures Included(Run(calls, k, ttl), Run(calls, n, ttl))
    ensures |Run(calls, n, ttl)| <= |Run(calls, k, ttl)| + (Capacity(n) - Capacity(k))
  {
    if calls == [] {
    } else {
      var init, call := calls[..|calls| - 1], calls[|calls| - 1];
      StackInclusion(init, k, n, ttl);
      RunShape(init, k, ttl);
      RunShape(init, n, ttl);
      match call {
        case Get(key, now) => GetKeepsInclusion(Run(init, k, ttl), Run(init, n, ttl), key, now);
        case Set(key, result, now) =>
          SetKeepsInclusion(Run(init, k, ttl), Run(init, n, ttl), k, n, ttl, key, result, now);
      }
    }
  }

  /** So every hit of the smaller cache is the same hit in the larger one. */
  lemma HitInclusion<R>(calls: seq<Call<R>>, k: int, n: int, ttl: int, key: string, now: int)
    requires k <= n
    requires Answer(Run(calls, k, ttl), key, now).Some?
    ensures Answer(Run(calls, n, ttl), key, now) == Answer(Run(calls, k, ttl), key, now)
  {
    StackInclusion(calls, k, n, ttl);
    IncludedKeys(Run(calls, k, ttl), Run(calls, n, ttl));
  }
}
