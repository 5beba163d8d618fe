/** The cache against an unbounded map with time-to-live, and what recency guarantees. */
module LruLaws {
  import Arithmetic
  import opened Options
  import opened LruModel

  /** The unbounded map: the newest Set of the key, with its expiry. */
  function Ledger<R>(calls: seq<Call<R>>, ttl: int, key: string): Option<Entry<R>> {
    if calls == [] then None
    else
      var call := calls[|calls| - 1];
      if call.Set? && call.key == key then Some(Entry(key, call.result, call.now + ttl))
      else Ledger(calls[..|calls| - 1], ttl, key)
  }

  function LedgerAnswer<R>(calls: seq<Call<R>>, ttl: int, key: string, now: int): Option<R> {
    match Ledger(calls, ttl, key)
    case None => None
    case Some(e) => if now < e.expires then Some(e.result) else None
  }

  // ---------------------------------------------------------------------------------------------
  // Whatever is resident is what the unbounded map holds.

  lemma MembersAfter<R>(s: seq<Entry<R>>, size: int, ttl: int, call: Call<R>, e: Entry<R>)
    requires e in After(s, size, ttl, call)
    ensures e in s || (call.Set? && e == Entry(call.key, call.result, call.now + ttl))
    ensures call.Set? && e.key == call.key ==> e == Entry(call.key, call.result, call.now + ttl)
  {
    WithoutMembers(s, call.key, e);
    match call {
      case Get(key, now) =>
      case Set(key, result, now) =>
        var f := Entry(key, result, now + ttl);
        if key !in Keys(s) {
          assert e in [f] + s;
          assert e in s ==> e.key in Keys(s);
        }
    }
  }

  lemma {:induction false} ResidentIsLedger<R>(calls: seq<Call<R>>, size: int, ttl: int, e: Entry<R>)
    requires e in Run(calls, size, ttl)
    ensures Ledger(calls, ttl, e.key) == Some(e)
  {
    var init, call := calls[..|calls| - 1], calls[|calls| - 1];
    MembersAfter(Run(init, size, ttl), size, ttl, call, e);
    if call.Set? && call.key == e.key {
    } else {
      ResidentIsLedger(init, size, ttl, e);
    }
  }

  /** Get answers exactly when its key is resident and the newest Set has not expired, and then with its value. */
  lemma AnswerExact<R>(calls: seq<Call<R>>, size: int, ttl: int, key: string, now: int)
    ensures Answer(Run(calls, size, ttl), key, now)
         == if key in Keys(Run(calls, size, ttl)) then LedgerAnswer(calls, ttl, key, now) else None
  {
    var s := Run(calls, size, ttl);
    if key in Keys(s) {
      ResidentIsLedger(calls, size, ttl, Find(s, key).value);
    }
  }

  /** A hit returns the value of the newest Set of its key, and only before that value's expiry. */
  lemma HitIsNewestSet<R>(calls: seq<Call<R>>, size: int, ttl: int, key: string, now: int)
    requires Answer(Run(calls, size, ttl), key, now).Some?
    ensures exists i :: 0 <= i < |calls| && NewestSet(calls, i, key)
                     && Answer(Run(calls, size, ttl), key, now) == Some(calls[i].result)
                     && now < calls[i].now + ttl
  {
    AnswerExact(calls, size, ttl, key, now);
    var i := LedgerSource(calls, ttl, key);
  }

  ghost predicate NewestSet<R>(calls: seq<Call<R>>, i: nat, key: string)
    requires i < |calls|
  {
    calls[i].Set? && calls[i].key == key && forall j :: i < j < |calls| ==> !(calls[j].Set? && calls[j].key == key)
  }

  lemma {:induction false} LedgerSource<R>(calls: seq<Call<R>>, ttl: int, key: string) returns (i: nat)
    requires Ledger(calls, ttl, key).Some?
    ensures i < |calls| && NewestSet(calls, i, key)
    ensures Ledger(calls, ttl, key) == Some(Entry(key, calls[i].result, calls[i].now + ttl))
  {
    var n := |calls| - 1;
    if calls[n].Set? && calls[n].key == key {
      i := n;
    } else {
      i := LedgerSource(calls[..n], ttl, key);
    }
  }

  /** The unbounded map answers with the newest Set of the key, before that call's time plus ttl, and nothing else. */
  lemma {:induction false} MapInFigures<R>(calls: seq<Call<R>>, ttl: int, key: string, now: int, i: nat)
    ensures i < |calls| && NewestSet(calls, i, key) ==>
              LedgerAnswer(calls, ttl, key, now) == if now < calls[i].now + ttl then Some(calls[i].result) else None
    ensures (forall j :: 0 <= j < |calls| ==> !(calls[j].Set? && calls[j].key == key)) ==>
              LedgerAnswer(calls, ttl, key, now) == None
  {
    if calls == [] {
    } else {
      var n := |calls| - 1;
      MapInFigures(calls[..n], ttl, key, now, i);
      assert forall j :: 0 <= j < n ==> calls[..n][j] == calls[j];
    }
  }

  // ---------------------------------------------------------------------------------------------
  // The list is in the order of last use.

  /** A Set uses its key, and so does a Get that hits. */
  predicate Uses<R>(s: seq<Entry<R>>, call: Call<R>) {
    call.Set? || Answer(s, call.key, call.now).Some?
  }

  /** The position of the last call that used the key, and -1 if there is none. */
  function LastUse<R>(calls: seq<Call<R>>, size: int, ttl: int, key: string): (at: int)
    ensures -1 <= at < |calls|
  {
    if calls == [] then -1
    else
      var n := |calls| - 1;
      if calls[n].key == key && Uses(Run(calls[..n], size, ttl), calls[n]) then n
      else LastUse(calls[..n], size, ttl, key)
  }

  ghost predicate ByLastUse<R>(s: seq<Entry<R>>, calls: seq<Call<R>>, size: int, ttl: int) {
    forall i, j :: 0 <= i < j < |s| ==>
      LastUse(calls, size, ttl, s[i].key) > LastUse(calls, size, ttl, s[j].key)
  }

  lemma {:induction false} WithoutByLastUse<R>(s: seq<Entry<R>>, key: string, calls: seq<Call<R>>, size: int, ttl: int)
    requires ByLastUse(s, calls, size, ttl)
    ensures ByLastUse(Without(s, key), calls, size, ttl)
  {
    if s == [] {
    } else {
      var rest := Without(s[1..], key);
      WithoutByLastUse(s[1..], key, calls, size, ttl);
      forall j | 0 <= j < |rest|
        ensures LastUse(calls, size, ttl, s[0].key) > LastUse(calls, size, ttl, rest[j].key)
      {
        WithoutMembers(s[1..], key, rest[j]);
        var k :| 0 <= k < |s[1..]| && s[1..][k] == rest[j];
        assert s[k + 1] == rest[j];
      }
    }
  }

  lemma LastUseSnoc<R>(calls: seq<Call<R>>, call: Call<R>, size: int, ttl: int, key: string)
    ensures LastUse(calls + [call], size, ttl, key)
         == if call.key == key && Uses(Run(calls, size, ttl), call) then |calls| else LastUse(calls, size, ttl, key)
  {
    assert (calls + [call])[..|calls|] == calls;
  }

  /** A call leaves the last use of other keys alone. */
  lemma OthersByLastUse<R>(s: seq<Entry<R>>, calls: seq<Call<R>>, call: Call<R>, size: int, ttl: int)
    requires ByLastUse(s, calls, size, ttl) && call.key !in Keys(s)
    ensures ByLastUse(s, calls + [call], size, ttl)
  {
    forall i, j | 0 <= i < j < |s|
      ensures LastUse(calls + [call], size, ttl, s[i].key) > LastUse(calls + [call], size, ttl, s[j].key)
    {
      assert s[i].key in Keys(s) && s[j].key in Keys(s);
      LastUseSnoc(calls, call, size, ttl, s[i].key);
      LastUseSnoc(calls, call, size, ttl, s[j].key);
    }
  }

  /** Whatever a used key is put in front of was used before it. */
  lemma FrontByLastUse<R>(e: Entry<R>, s: seq<Entry<R>>, calls: seq<Call<R>>, call: Call<R>, size: int, ttl: int)
    requires ByLastUse(s, calls, size, ttl) && call.key !in Keys(s)
    requires e.key == call.key && Uses(Run(calls, size, ttl), call)
    ensures ByLastUse([e] + s, calls + [call], size, ttl)
  {
    OthersByLastUse(s, calls, call, size, ttl);
    LastUseSnoc(calls, call, size, ttl, e.key);
    forall j | 0 <= j < |s|
      ensures LastUse(calls + [call], size, ttl, e.key) > LastUse(calls + [call], size, ttl, s[j].key)
    {
      assert s[j].key in Keys(s);
      LastUseSnoc(calls, call, size, ttl, s[j].key);
    }
  }

  lemma PrefixByLastUse<R>(s: seq<Entry<R>>, n: nat, calls: seq<Call<R>>, size: int, ttl: int)
    requires n <= |s| && ByLastUse(s, calls, size, ttl)
    ensures ByLastUse(s[..n], calls, size, ttl)
  {
  }

  lemma StepByLastUse<R>(calls: seq<Call<R>>, call: Call<R>, size: int, ttl: int)
    requires ByLastUse(Run(calls, size, ttl), calls, size, ttl)
    ensures ByLastUse(After(Run(calls, size, ttl), size, ttl, call), calls + [call], size, ttl)
  {
    var s := Run(calls, size, ttl);
    WithoutByLastUse(s, call.key, calls, size, ttl);
    WithoutKeys(s, call.key);
    if call.Get? {
      GetByLastUse(s, calls, call, size, ttl);
    } else {
      SetByLastUse(s, calls, call, size, ttl);
    }
  }

  lemma GetByLastUse<R>(s: seq<Entry<R>>, calls: seq<Call<R>>, call: Call<R>, size: int, ttl: int)
    requires call.Get? && s == Run(calls, size, ttl) && ByLastUse(s, calls, size, ttl)
    requires ByLastUse(Without(s, call.key), calls, size, ttl) && call.key !in Keys(Without(s, call.key))
    ensures ByLastUse(AfterGet(s, call.key, call.now), calls + [call], size, ttl)
  {
    if call.key !in Keys(s) {
      OthersByLastUse(s, calls, call, size, ttl);
    } else if call.now < Find(s, call.key).value.expires {
      FrontByLastUse(Find(s, call.key).value, Without(s, call.key), calls, call, size, ttl);
    } else {
      OthersByLastUse(Without(s, call.key), calls, call, size, ttl);
    }
  }

  lemma SetByLastUse<R>(s: seq<Entry<R>>, calls: seq<Call<R>>, call: Call<R>, size: int, ttl: int)
    requires call.Set? && ByLastUse(s, calls, size, ttl)
    requires ByLastUse(Without(s, call.key), calls, size, ttl) && call.key !in Keys(Without(s, call.key))
    ensures ByLastUse(AfterSet(s, size, ttl, call.key, call.result, call.now), calls + [call], size, ttl)
  {
    var e := Entry(call.key, call.result, call.now + ttl);
    if call.key in Keys(s) {
      FrontByLastUse(e, Without(s, call.key), calls, call, size, ttl);
    } else {
      NewByLastUse(e, s, calls, call, size, ttl);
    }
  }

  lemma NewByLastUse<R>(e: Entry<R>, s: seq<Entry<R>>, calls: seq<Call<R>>, call: Call<R>, size: int, ttl: int)
    requires call.Set? && e.key == call.key && call.key !in Keys(s) && ByLastUse(s, calls, size, ttl)
    ensures ByLastUse(Evict([e] + s, size), calls + [call], size, ttl)
  {
    FrontByLastUse(e, s, calls, call, size, ttl);
    PrefixByLastUse([e] + s, |Evict([e] + s, size)|, calls + [call], size, ttl);
  }

  /** After every trace the list runs from the most to the least recently used key. */
  lemma {:induction false} RunByLastUse<R>(calls: seq<Call<R>>, size: int, ttl: int)
    ensures ByLastUse(Run(calls, size, ttl), calls, size, ttl)
  {
    if calls == [] {
    } else {
      var n := |calls| - 1;
      RunByLastUse(calls[..n], size, ttl);
      StepByLastUse(calls[..n], calls[n], size, ttl);
      assert calls[..n] + [calls[n]] == calls;
    }
  }

  /** No other resident key was last used as long ago. */
  ghost predicate LeastRecentlyUsed<R>(e: Entry<R>, calls: seq<Call<R>>, size: int, ttl: int) {
    forall x :: x in Run(calls, size, ttl) && x != e ==>
      LastUse(calls, size, ttl, x.key) > LastUse(calls, size, ttl, e.key)
  }

  lemma LastIsLeast<R>(calls: seq<Call<R>>, size: int, ttl: int, i: nat)
    requires i < |Run(calls, size, ttl)|
    ensures LeastRecentlyUsed(Run(calls, size, ttl)[i], calls, size, ttl) <==> i == |Run(calls, size, ttl)| - 1
  {
    RunByLastUse(calls, size, ttl);
    RunShape(calls, size, ttl);
    LastOfList(Run(calls, size, ttl), calls, size, ttl, i);
  }

  lemma LastOfList<R>(s: seq<Entry<R>>, calls: seq<Call<R>>, size: int, ttl: int, i: nat)
    requires i < |s| && ByLastUse(s, calls, size, ttl)
    ensures (forall x :: x in s && x != s[i] ==>
               LastUse(calls, size, ttl, x.key) > LastUse(calls, size, ttl, s[i].key)) <==> i == |s| - 1
  {
    if i < |s| - 1 {
      var last := s[|s| - 1];
      assert last in s && LastUse(calls, size, ttl, s[i].key) > LastUse(calls, size, ttl, last.key);
    } else {
      forall x | x in s && x != s[i]
        ensures LastUse(calls, size, ttl, x.key) > LastUse(calls, size, ttl, s[i].key)
      {
        var j :| 0 <= j < |s| && s[j] == x;
      }
    }
  }

  /** A new key pushes out the last entry of a full list, and no other. */
  lemma PushedOut<R>(s: seq<Entry<R>>, size: int, e: Entry<R>, i: nat)
    requires Distinct(s) && i < |s| <= size && e.key !in Keys(s)
    ensures s[i].key !in Keys(Evict([e] + s, size)) <==> |s| == size && i == |s| - 1
  {
    var t := Evict([e] + s, size);
    assert s[i].key in Keys(s);
    if i + 1 < |t| {
      assert t[i + 1] == s[i];
    } else {
      assert forall k :: 0 < k < |t| ==> t[k] == s[k - 1];
    }
  }

  /**
   An entry leaves in exactly two ways: a Get of its key finds it expired, or a Set of a new key finds the cache
   full and the entry's key the least recently used of all.
   */
  lemma LeavesExactly<R>(calls: seq<Call<R>>, call: Call<R>, size: int, ttl: int, e: Entry<R>)
    requires e in Run(calls, size, ttl)
    ensures var s := Run(calls, size, ttl);
            e.key !in Keys(Run(calls + [call], size, ttl)) <==>
              if call.Get? then call.key == e.key && e.expires <= call.now
              else call.key !in Keys(s) && |s| == size && LeastRecentlyUsed(e, calls, size, ttl)
  {
    var s := Run(calls, size, ttl);
    var i :| 0 <= i < |s| && s[i] == e;
    assert (calls + [call])[..|calls|] == calls;
    RunShape(calls, size, ttl);
    if call.Get? {
      LeavesOnGet(s, call.key, call.now, i);
    } else {
      LeavesOnSet(s, size, ttl, call.key, call.result, call.now, i);
      LastIsLeast(calls, size, ttl, i);
    }
  }

  lemma LeavesOnGet<R>(s: seq<Entry<R>>, key: string, now: int, i: nat)
    requires Distinct(s) && i < |s|
    ensures s[i].key !in Keys(AfterGet(s, key, now)) <==> key == s[i].key && s[i].expires <= now
  {
    assert s[i].key in Keys(s);
    WithoutKeys(s, key);
    FindDistinct(s, i);
    if key in Keys(s) {
      KeysPrepend(Find(s, key).value, Without(s, key));
    }
  }

  lemma LeavesOnSet<R>(s: seq<Entry<R>>, size: int, ttl: int, key: string, result: R, now: int, i: nat)
    requires Distinct(s) && i < |s| <= size
    ensures s[i].key !in Keys(AfterSet(s, size, ttl, key, result, now)) <==>
              key !in Keys(s) && |s| == size && i == |s| - 1
  {
    var e := Entry(key, result, now + ttl);
    assert s[i].key in Keys(s);
    if key in Keys(s) {
      WithoutKeys(s, key);
      KeysPrepend(e, Without(s, key));
    } else {
      PushedOut(s, size, e, i);
    }
  }

  // ---------------------------------------------------------------------------------------------
  // Recency: an entry stays while fewer than `size` other keys are used.

  function Touched<R>(calls: seq<Call<R>>): set<string> {
    set i | 0 <= i < |calls| :: calls[i].key
  }

  /** The keys that the later calls use. */
  function UsedKeys<R>(start: seq<Call<R>>, later: seq<Call<R>>, size: int, ttl: int): set<string> {
    if later == [] then {}
    else
      var n := |later| - 1;
      UsedKeys(start, later[..n], size, ttl)
      + if Uses(Run(start + later[..n], size, ttl), later[n]) then {later[n].key} else {}
  }

  lemma {:induction false} KeysCount<R>(s: seq<Entry<R>>)
    requires Distinct(s)
    ensures |Keys(s)| == |s|
  {
    if s == [] {
    } else {
      KeysCount(s[1..]);
      assert s == [s[0]] + s[1..];
      KeysPrepend(s[0], s[1..]);
    }
  }

  lemma {:induction false} WithoutIndex<R>(s: seq<Entry<R>>, key: string, i: nat) returns (i': nat)
    requires i < |s| && s[i].key != key
    ensures i' <= i && i' < |Without(s, key)| && Without(s, key)[i'] == s[i]
    ensures forall j :: 0 <= j < i' ==> Without(s, key)[j].key in Keys(s[..i])
  {
    if i == 0 {
      i' := 0;
    } else {
      i' := WithoutIndex(s[1..], key, i - 1);
      assert s[..i] == [s[0]] + s[1..][..i - 1];
      KeysPrepend(s[0], s[1..][..i - 1]);
      if s[0].key != key {
        i' := i' + 1;
      }
    }
  }

  /** e sits at index i, behind keys that were all used. */
  ghost predicate Behind<R>(s: seq<Entry<R>>, e: Entry<R>, i: nat, used: set<string>) {
    i < |s| && s[i] == e && forall j :: 0 <= j < i ==> s[j].key in used
  }

  /** The keys in front of e are distinct and used, and the new key is not among them. */
  lemma FewInFront<R>(s: seq<Entry<R>>, e: Entry<R>, i: nat, used: set<string>, key: string)
    requires Distinct(s) && Behind(s, e, i, used) && key !in Keys(s)
    ensures i + 1 <= |used + {key}|
  {
    KeysCount(s[..i]);
    assert Keys(s[..i]) <= Keys(s);
    Arithmetic.SubsetSize(Keys(s[..i]) + {key}, used + {key});
  }

  lemma SetRetains<R>(s: seq<Entry<R>>, size: int, e: Entry<R>, i: nat, used: set<string>, added: Entry<R>)
    requires Distinct(s) && |s| <= Capacity(size) && Behind(s, e, i, used) && added.key !in Keys(s)
    requires |used + {added.key}| < size
    ensures Behind(Evict([added] + s, size), e, i + 1, used + {added.key})
  {
    BehindFront(s, e, i, used, added);
    FewInFront(s, e, i, used, added.key);
  }

  lemma BehindFront<R>(s: seq<Entry<R>>, e: Entry<R>, i: nat, used: set<string>, front: Entry<R>)
    requires Behind(s, e, i, used)
    ensures Behind([front] + s, e, i + 1, used + {front.key})
  {
    var t := [front] + s;
    forall j | 0 <= j < i + 1
      ensures t[j].key in used + {front.key}
    {
      assert j > 0 ==> t[j] == s[j - 1];
    }
  }

  lemma GetRetains<R>(s: seq<Entry<R>>, key: string, now: int, e: Entry<R>, i: nat, used: set<string>) returns (i': nat)
    requires Distinct(s) && Behind(s, e, i, used) && key != e.key
    ensures Behind(AfterGet(s, key, now), e, i', used + if Answer(s, key, now).Some? then {key} else {})
  {
    var w := WithoutIndex(s, key, i);
    assert Behind(Without(s, key), e, w, used);
    match Find(s, key)
    case None =>
      i' := i;
    case Some(f) =>
      if now < f.expires {
        BehindFront(Without(s, key), e, w, used, f);
        i' := w + 1;
      } else {
        i' := w;
      }
  }

  lemma RefreshRetains<R>(s: seq<Entry<R>>, e: Entry<R>, i: nat, used: set<string>, added: Entry<R>) returns (i': nat)
    requires Distinct(s) && Behind(s, e, i, used) && added.key != e.key
    ensures Behind([added] + Without(s, added.key), e, i', used + {added.key})
  {
    var w := WithoutIndex(s, added.key, i);
    BehindFront(Without(s, added.key), e, w, used, added);
    i' := w + 1;
  }

  lemma StepRetains<R>(s: seq<Entry<R>>, size: int, ttl: int, call: Call<R>, e: Entry<R>, i: nat, used: set<string>)
    returns (i': nat)
    requires Distinct(s) && |s| <= Capacity(size)
    requires Behind(s, e, i, used) && call.key != e.key
    requires Uses(s, call) ==> |used + {call.key}| < size
    ensures Behind(After(s, size, ttl, call), e, i', used + if Uses(s, call) then {call.key} else {})
  {
    match call {
      case Get(key, now) =>
        i' := GetRetains(s, key, now, e, i, used);
      case Set(key, result, now) =>
        if key in Keys(s) {
          i' := RefreshRetains(s, e, i, used, Entry(key, result, now + ttl));
        } else {
          i' := i + 1;
          SetRetains(s, size, e, i, used, Entry(key, result, now + ttl));
        }
    }
  }

  lemma UsedSnoc<R>(start: seq<Call<R>>, init: seq<Call<R>>, call: Call<R>, size: int, ttl: int)
    ensures UsedKeys(start, init + [call], size, ttl)
         == UsedKeys(start, init, size, ttl) + if Uses(Run(start + init, size, ttl), call) then {call.key} else {}
    ensures |UsedKeys(start, init, size, ttl)| <= |UsedKeys(start, init + [call], size, ttl)|
  {
    assert (init + [call])[..|init|] == init;
    Arithmetic.SubsetSize(UsedKeys(start, init, size, ttl), UsedKeys(start, init + [call], size, ttl));
  }

  lemma RunSnoc<R>(start: seq<Call<R>>, init: seq<Call<R>>, call: Call<R>, size: int, ttl: int)
    ensures Run(start + (init + [call]), size, ttl) == After(Run(start + init, size, ttl), size, ttl, call)
  {
    var calls := start + (init + [call]);
    assert calls == start + init + [call];
    assert calls[..|calls| - 1] == start + init && calls[|calls| - 1] == call;
  }

  lemma TouchedSnoc<R>(init: seq<Call<R>>, call: Call<R>)
    ensures Touched(init + [call]) == Touched(init) + {call.key}
  {
    assert (init + [call])[|init|] == call;
    assert forall i :: 0 <= i < |init| ==> (init + [call])[i] == init[i];
  }

  lemma {:induction false} Retained<R>(start: seq<Call<R>>, e: Entry<R>, later: seq<Call<R>>, size: int, ttl: int)
    returns (i: nat)
    requires Run(start, size, ttl) != [] && e == Run(start, size, ttl)[0] && e.key !in Touched(later)
    requires |UsedKeys(start, later, size, ttl)| < size
    ensures Behind(Run(start + later, size, ttl), e, i, UsedKeys(start, later, size, ttl))
  {
    if later == [] {
      assert start + later == start;
      i := 0;
    } else {
      var init, call := later[..|later| - 1], later[|later| - 1];
      assert later == init + [call];
      TouchedSnoc(init, call);
      UsedSnoc(start, init, call, size, ttl);
      RunSnoc(start, init, call, size, ttl);
      RunShape(start + init, size, ttl);
      var i0 := Retained(start, e, init, size, ttl);
      i := StepRetains(Run(start + init, size, ttl), size, ttl, call, e, i0, UsedKeys(start, init, size, ttl));
    }
  }

  /** A hit or a Set puts its key in front. */
  lemma UsePutsInFront<R>(start: seq<Call<R>>, call: Call<R>, size: int, ttl: int)
    requires size > 0
    requires Uses(Run(start, size, ttl), call)
    ensures var s := Run(start + [call], size, ttl);
            s != [] && s[0].key == call.key && Ledger(start + [call], ttl, call.key) == Some(s[0])
  {
    var s := Run(start + [call], size, ttl);
    assert (start + [call])[..|start|] == start;
    assert s == After(Run(start, size, ttl), size, ttl, call);
    assert s[0] in s;
    ResidentIsLedger(start + [call], size, ttl, s[0]);
  }

  /** A Set is answered until it expires, by any cache that holds something, and never by one that does not. */
  lemma SetIsAnswered<R>(start: seq<Call<R>>, key: string, result: R, at: int, size: int, ttl: int, now: int)
    ensures Answer(Run(start + [Set(key, result, at)], size, ttl), key, now)
         == if size > 0 && now < at + ttl then Some(result) else None
  {
    var calls := start + [Set(key, result, at)];
    if size > 0 {
      UsePutsInFront(start, Set(key, result, at), size, ttl);
      RunShape(calls, size, ttl);
      FindDistinct(Run(calls, size, ttl), 0);
    } else {
      RunShape(calls, size, ttl);
      assert Run(calls, size, ttl) == [];
    }
  }

  /**
   After a hit or a Set, the key answers with its newest value until that expires, as long as later calls leave
   it alone and use fewer than `size` other keys.
   */
  lemma RecentlyUsedStays<R>(start: seq<Call<R>>, call: Call<R>, later: seq<Call<R>>, size: int, ttl: int, now: int)
    requires Uses(Run(start, size, ttl), call)
    requires call.key !in Touched(later) && |UsedKeys(start + [call], later, size, ttl)| < size
    ensures Answer(Run(start + [call] + later, size, ttl), call.key, now)
              == LedgerAnswer(start + [call], ttl, call.key, now)
  {
    UsePutsInFront(start, call, size, ttl);
    var i := Retained(start + [call], Run(start + [call], size, ttl)[0], later, size, ttl);
    RunShape(start + [call] + later, size, ttl);
    FindDistinct(Run(start + [call] + later, size, ttl), i);
  }

  // ---------------------------------------------------------------------------------------------
  // A cache large enough for every key is the unbounded map.

  function SetKeys<R>(calls: seq<Call<R>>): set<string> {
    set i | 0 <= i < |calls| && calls[i].Set? :: calls[i].key
  }

  ghost predicate ClockForward<R>(calls: seq<Call<R>>, now: int) {
    && (forall i, j :: 0 <= i < j < |calls| ==> calls[i].now <= calls[j].now)
    && (calls != [] ==> calls[|calls| - 1].now <= now)
  }

  lemma ResidentKeysWereSet<R>(calls: seq<Call<R>>, size: int, ttl: int)
    ensures Keys(Run(calls, size, ttl)) <= SetKeys(calls)
  {
    forall key | key in Keys(Run(calls, size, ttl))
      ensures key in SetKeys(calls)
    {
      var s := Run(calls, size, ttl);
      ResidentIsLedger(calls, size, ttl, Find(s, key).value);
      var i := LedgerSource(calls, ttl, key);
    }
  }

  lemma StepKeepsEntry<R>(s: seq<Entry<R>>, size: int, ttl: int, call: Call<R>, e: Entry<R>)
    requires Distinct(s) && e in s
    requires call.key == e.key ==> call.Get? && call.now < e.expires
    requires call.Set? && call.key !in Keys(s) ==> |s| < size
    ensures e in After(s, size, ttl, call)
  {
    WithoutMembers(s, call.key, e);
    var i :| 0 <= i < |s| && s[i] == e;
    FindDistinct(s, i);
  }

  lemma RoomForOneMore<R>(calls: seq<Call<R>>, size: int, ttl: int)
    requires calls != [] && |SetKeys(calls)| <= size
    ensures |SetKeys(calls[..|calls| - 1])| <= size
    ensures var s, call := Run(calls[..|calls| - 1], size, ttl), calls[|calls| - 1];
            call.Set? && call.key !in Keys(s) ==> |s| < size
  {
    var init, call := calls[..|calls| - 1], calls[|calls| - 1];
    var s := Run(init, size, ttl);
    assert SetKeys(init) <= SetKeys(calls);
    Arithmetic.SubsetSize(SetKeys(init), SetKeys(calls));
    RunShape(init, size, ttl);
    KeysCount(s);
    ResidentKeysWereSet(init, size, ttl);
    if call.Set? && call.key !in Keys(s) {
      assert call.key in SetKeys(calls);
      Arithmetic.SubsetSize(Keys(s) + {call.key}, SetKeys(calls));
    }
  }

  /** With room for every key that was ever set, an entry leaves only by expiring. */
  lemma {:induction false} OnlyExpiryRemoves<R>(calls: seq<Call<R>>, size: int, ttl: int, key: string, now: int)
    requires |SetKeys(calls)| <= size && ClockForward(calls, now)
    requires Ledger(calls, ttl, key).Some? && now < Ledger(calls, ttl, key).value.expires
    ensures Ledger(calls, ttl, key).value in Run(calls, size, ttl)
  {
    var init, call := calls[..|calls| - 1], calls[|calls| - 1];
    RoomForOneMore(calls, size, ttl);
    if call.Set? && call.key == key {
      assert Run(calls, size, ttl)[0] == Ledger(calls, ttl, key).value;
    } else {
      OnlyExpiryRemoves(init, size, ttl, key, now);
      RunShape(init, size, ttl);
      var i := LedgerSource(init, ttl, key);
      StepKeepsEntry(Run(init, size, ttl), size, ttl, call, Ledger(init, ttl, key).value);
    }
  }

  /** No evictions and a clock that never goes back: the answers are those of the unbounded map. */
  lemma LargeCacheIsTheMap<R>(calls: seq<Call<R>>, size: int, ttl: int, key: string, now: int)
    requires |SetKeys(calls)| <= size && ClockForward(calls, now)
    ensures Answer(Run(calls, size, ttl), key, now) == LedgerAnswer(calls, ttl, key, now)
  {
    AnswerExact(calls, size, ttl, key, now);
    if LedgerAnswer(calls, ttl, key, now).Some? {
      OnlyExpiryRemoves(calls, size, ttl, key, now);
      var i := LedgerSource(calls, ttl, key);
      assert Ledger(calls, ttl, key).value.key == key;
    }
  }
}
