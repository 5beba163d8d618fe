/** The cache in front of the gate: internal/insight/factory/cached.go, one call at a time and interleaved. */
module CachedChain {
  import opened Options
  import opened LruModel
  import LruLaws
  import MemCache
  import opened Gate

  const NUL: char := '\0'

  predicate NulFree(s: string) {
    forall i :: 0 <= i < |s| ==> s[i] != NUL
  }

  /** JSON text: its encoder escapes control characters, so no zero byte is ever in it. */
  type Json = s: string | NulFree(s)

  /** Facts are their JSON text; equal facts have equal text. */
  datatype Request = Request(user: string, task: string, facts: Json)

  /** What is hashed into the cache key. The hash is taken to be free of collisions. */
  function Key(r: Request): string {
    r.user + [NUL] + r.task + [NUL] + r.facts
  }

  predicate Separable(r: Request) {
    NulFree(r.user) && NulFree(r.task)
  }

  lemma KeyParts(r: Request)
    ensures var u, t := |r.user|, |r.task|;
            && |Key(r)| == u + t + 2 + |r.facts|
            && Key(r)[..u] == r.user && Key(r)[u] == NUL
            && Key(r)[u + 1..u + 1 + t] == r.task && Key(r)[u + 1 + t] == NUL
            && Key(r)[u + t + 2..] == r.facts
    ensures forall i :: |r.user| + 1 + |r.task| < i < |Key(r)| ==> Key(r)[i] != NUL
    ensures Separable(r) ==>
              forall i :: 0 <= i < |Key(r)| && Key(r)[i] == NUL ==> i == |r.user| || i == |r.user| + 1 + |r.task|
  {
  }

  /** The last two separators of a key delimit its facts; in a separable request they are the only ones. */
  lemma KeyInjective(a: Request, b: Request)
    requires Separable(a) && Key(a) == Key(b)
    ensures a == b
  {
    KeyParts(a);
    KeyParts(b);
  }

  lemma Ambiguous(r: Request) returns (other: Request)
    requires !Separable(r)
    ensures other != r && Key(other) == Key(r)
  {
    var (u, t) := (r.user, r.task);
    if !NulFree(u) {
      var i :| 0 <= i < |u| && u[i] == NUL;
      other := Request(u[..i], u[i + 1..] + [NUL] + t, r.facts);
      assert u == u[..i] + [NUL] + u[i + 1..];
    } else {
      var i :| 0 <= i < |t| && t[i] == NUL;
      other := Request(u + [NUL] + t[..i], t[i + 1..], r.facts);
      assert t == t[..i] + [NUL] + t[i + 1..];
    }
  }

  /** A request shares its key with no other request exactly when neither its user nor its task holds the separator. */
  lemma KeyUnambiguous(r: Request)
    ensures (forall other :: Key(other) == Key(r) ==> other == r) <==> NulFree(r.user) && NulFree(r.task)
  {
    if Separable(r) {
      forall other | Key(other) == Key(r)
        ensures other == r
      {
        KeyInjective(r, other);
      }
    } else {
      var other := Ambiguous(r);
    }
  }

  // ---------------------------------------------------------------------------------------------
  // One call, run alone.

  class Cached {
    const cache: MemCache.MemCache<InsightResult>
    const containsOrder: string -> bool

    constructor (cache: MemCache.MemCache<InsightResult>, containsOrder: string -> bool)
      ensures this.cache == cache && this.containsOrder == containsOrder
    {
      this.cache, this.containsOrder := cache, containsOrder;
    }

    /** A hit answers from the cache; a miss asks the gated provider, and stores its answer unless it is an error. */
    method Generate(req: Request, lookup: int, provider: Outcome, store: int) returns (outcome: Outcome, hit: bool)
      requires cache.Valid()
      modifies cache, cache.ll
      ensures cache.Valid()
      ensures hit <==> Answer(old(cache.contents), Key(req), lookup).Some?
      ensures hit ==> outcome == Ok(Answer(old(cache.contents), Key(req), lookup).value)
      ensures !hit ==> Gated(provider, containsOrder, outcome)
      ensures var looked := AfterGet(old(cache.contents), Key(req), lookup);
              cache.contents == if hit || outcome.Err? then looked
                                  else AfterSet(looked, cache.size, cache.ttl, Key(req), outcome.result, store)
    {
      var key := Key(req);
      var found := cache.Get(key, lookup);
      if found.Some? {
        return Ok(found.value), true;
      }
      var answer := Gate.Generate(provider, containsOrder);
      if answer.Err? {
        return answer, false;
      }
      cache.Set(key, answer.result, store);
      return answer, false;
    }
  }

  // ---------------------------------------------------------------------------------------------
  // Many calls at once: the lookup and the store of a call are separate atomic steps.

  datatype Config = Config(size: int, ttl: int, containsOrder: string -> bool)

  /** What a call returned: from the cache, fresh from the gate (and stored at that time), or an error. */
  datatype Event = Hit(req: Request, result: InsightResult, now: int)
                 | Fresh(req: Request, result: InsightResult, now: int)
                 | Failed(req: Request, error: Error)

  datatype State = State(cache: seq<Entry<InsightResult>>, pending: map<nat, Request>, log: seq<Event>)

  const START: State := State([], map[], [])

  ghost predicate Lookup(c: Config, s: State, s': State, id: nat, req: Request, now: int) {
    && id !in s.pending
    && s'.cache == AfterGet(s.cache, Key(req), now)
    && match Answer(s.cache, Key(req), now)
       case Some(r) => s'.pending == s.pending && s'.log == s.log + [Hit(req, r, now)]
       case None => s'.pending == s.pending[id := req] && s'.log == s.log
  }

  ghost predicate Finish(c: Config, s: State, s': State, id: nat, provider: Outcome, now: int) {
    && id in s.pending && s'.pending == s.pending - {id}
    && var req := s.pending[id];
       exists outcome ::
         && Gated(provider, c.containsOrder, outcome)
         && match outcome
            case Ok(r) =>
              && s'.cache == AfterSet(s.cache, c.size, c.ttl, Key(req), r, now)
              && s'.log == s.log + [Fresh(req, r, now)]
            case Err(e) => s'.cache == s.cache && s'.log == s.log + [Failed(req, e)]
  }

  ghost predicate Next(c: Config, s: State, s': State) {
    || (exists id, req, now :: Lookup(c, s, s', id, req, now))
    || (exists id, provider, now :: Finish(c, s, s', id, provider, now))
  }

  ghost predicate Behaviour(c: Config, run: seq<State>) {
    run != [] && run[0] == START && forall i :: 0 <= i < |run| - 1 ==> Next(c, run[i], run[i + 1])
  }

  /** Some fresh result before position `end` of the log is this one, under this key, stored ttl before `expires`. */
  ghost predicate StoredBefore(c: Config, log: seq<Event>, end: nat, key: string, result: InsightResult, expires: int) {
    exists i :: 0 <= i < end && i < |log| && log[i].Fresh? && Key(log[i].req) == key && log[i].result == result
        && log[i].now + c.ttl == expires
  }

  ghost predicate Justified(c: Config, log: seq<Event>, j: nat)
    requires j < |log|
  {
    match log[j]
    case Hit(req, r, now) =>
      AllClean(r, c.containsOrder) && exists expires :: now < expires && StoredBefore(c, log, j, Key(req), r, expires)
    case Fresh(req, r, now) => AllClean(r, c.containsOrder)
    case Failed(req, e) => true
  }

  ghost predicate Safe(c: Config, s: State) {
    && (forall e :: e in s.cache ==> StoredBefore(c, s.log, |s.log|, e.key, e.result, e.expires))
    && (forall j :: 0 <= j < |s.log| ==> Justified(c, s.log, j))
  }

  lemma LogGrows(c: Config, log: seq<Event>, event: Event)
    ensures forall end: nat, key, r, expires :: end <= |log| && StoredBefore(c, log, end, key, r, expires)
              ==> StoredBefore(c, log + [event], end, key, r, expires)
                  && StoredBefore(c, log + [event], |log| + 1, key, r, expires)
    ensures forall j :: 0 <= j < |log| && Justified(c, log, j) ==> Justified(c, log + [event], j)
  {
    var log' := log + [event];
    forall end: nat, key, r, expires | end <= |log| && StoredBefore(c, log, end, key, r, expires)
      ensures StoredBefore(c, log', end, key, r, expires) && StoredBefore(c, log', |log| + 1, key, r, expires)
    {
      var i :| 0 <= i < end && i < |log| && log[i].Fresh? && Key(log[i].req) == key && log[i].result == r
          && log[i].now + c.ttl == expires;
      assert log'[i] == log[i];
    }
    forall j | 0 <= j < |log| && Justified(c, log, j)
      ensures Justified(c, log', j)
    {
      assert log'[j] == log[j];
    }
  }

  lemma LookupIsSafe(c: Config, s: State, s': State, id: nat, req: Request, now: int)
    requires Safe(c, s) && Lookup(c, s, s', id, req, now)
    ensures Safe(c, s')
  {
    forall e | e in s'.cache
      ensures e in s.cache
    {
      WithoutMembers(s.cache, Key(req), e);
    }
    if Answer(s.cache, Key(req), now).Some? {
      HitIsSafe(c, s, s', req, Find(s.cache, Key(req)).value, now);
    }
  }

  lemma HitIsSafe(c: Config, s: State, s': State, req: Request, e: Entry<InsightResult>, now: int)
    requires Safe(c, s) && e in s.cache && e.key == Key(req) && now < e.expires
    requires forall x :: x in s'.cache ==> x in s.cache
    requires s'.log == s.log + [Hit(req, e.result, now)]
    ensures Safe(c, s')
  {
    LogGrows(c, s.log, Hit(req, e.result, now));
    HitIsJustified(c, s, req, e, now);
  }

  lemma HitIsJustified(c: Config, s: State, req: Request, e: Entry<InsightResult>, now: int)
    requires Safe(c, s) && e in s.cache && e.key == Key(req) && now < e.expires
    ensures Justified(c, s.log + [Hit(req, e.result, now)], |s.log|)
  {
    var i :| 0 <= i < |s.log| && s.log[i].Fresh? && Key(s.log[i].req) == e.key && s.log[i].result == e.result
        && s.log[i].now + c.ttl == e.expires;
    assert Justified(c, s.log, i);
    LogGrows(c, s.log, Hit(req, e.result, now));
    assert StoredBefore(c, s.log + [Hit(req, e.result, now)], |s.log|, Key(req), e.result, e.expires);
  }

  lemma FinishIsSafe(c: Config, s: State, s': State, id: nat, provider: Outcome, now: int)
    requires Safe(c, s) && Finish(c, s, s', id, provider, now)
    ensures Safe(c, s')
  {
    var req := s.pending[id];
    LogGrows(c, s.log, s'.log[|s.log|]);
    if s'.log[|s.log|].Fresh? {
      var r := s'.log[|s.log|].result;
      GateIsClosed(provider, c.containsOrder, Ok(r), Ok(r));
      forall e | e in s'.cache
        ensures StoredBefore(c, s'.log, |s'.log|, e.key, e.result, e.expires)
      {
        LruLaws.MembersAfter(s.cache, c.size, c.ttl, Call.Set(Key(req), r, now), e);
      }
    }
  }

  lemma {:induction false} EveryStateIsSafe(c: Config, run: seq<State>, n: nat)
    requires Behaviour(c, run) && n < |run|
    ensures Safe(c, run[n])
  {
    if n == 0 {
    } else {
      EveryStateIsSafe(c, run, n - 1);
      var s, s' := run[n - 1], run[n];
      assert Next(c, s, run[n - 1 + 1]);
      if id, req, now :| Lookup(c, s, s', id, req, now) {
        LookupIsSafe(c, s, s', id, req, now);
      } else {
        var id, provider, now :| Finish(c, s, s', id, provider, now);
        FinishIsSafe(c, s, s', id, provider, now);
      }
    }
  }

  /**
   Whatever is returned without error, in any interleaving, is clean. A hit was let through by the gate
   earlier, less than the TTL before, for a request with the same key; if that request holds no separator,
   it was the very same request, so no user is served another user's result.
   */
  lemma ReturnedResultsAreSafe(c: Config, run: seq<State>, n: nat, j: nat)
    requires Behaviour(c, run) && n < |run| && j < |run[n].log| && !run[n].log[j].Failed?
    ensures AllClean(run[n].log[j].result, c.containsOrder)
    ensures run[n].log[j].Hit? ==>
              exists i :: 0 <= i < j && run[n].log[i].Fresh?
                && run[n].log[i].result == run[n].log[j].result
                && Key(run[n].log[i].req) == Key(run[n].log[j].req)
                && (Separable(run[n].log[j].req) ==> run[n].log[i].req == run[n].log[j].req)
                && run[n].log[j].now - run[n].log[i].now < c.ttl
  {
    EveryStateIsSafe(c, run, n);
    var log := run[n].log;
    assert Justified(c, log, j);
    if log[j].Hit? {
      var expires :| log[j].now < expires && StoredBefore(c, log, j, Key(log[j].req), log[j].result, expires);
      var i :| 0 <= i < j && log[i].Fresh? && Key(log[i].req) == Key(log[j].req) && log[i].result == log[j].result
          && log[i].now + c.ttl == expires;
      if Separable(log[j].req) {
        KeyInjective(log[j].req, log[i].req);
      }
    }
  }

  /** What Generate does in one piece is a lookup and, unless it hits, a store, with the same cache at the end. */
  lemma CallIsAPath(c: Config, s: State, id: nat, req: Request, lookup: int, provider: Outcome, store: int,
                    outcome: Outcome, hit: bool) returns (looked: State, s': State)
    requires id !in s.pending && (hit <==> Answer(s.cache, Key(req), lookup).Some?)
    requires if hit then outcome == Ok(Answer(s.cache, Key(req), lookup).value)
             else Gated(provider, c.containsOrder, outcome)
    ensures Lookup(c, s, looked, id, req, lookup)
    ensures if hit then s' == looked else Finish(c, looked, s', id, provider, store)
    ensures s'.cache == if hit || outcome.Err? then AfterGet(s.cache, Key(req), lookup)
                        else AfterSet(AfterGet(s.cache, Key(req), lookup), c.size, c.ttl, Key(req), outcome.result,
                                      store)
    ensures |s'.log| == |s.log| + 1 && s'.pending == s.pending
    ensures outcome.Ok? ==> !s'.log[|s.log|].Failed? && s'.log[|s.log|].result == outcome.result
  {
    var cache := AfterGet(s.cache, Key(req), lookup);
    if hit {
      looked := State(cache, s.pending, s.log + [Hit(req, outcome.result, lookup)]);
      s' := looked;
    } else {
      looked := State(cache, s.pending[id := req], s.log);
      var pending := looked.pending - {id};
      assert pending == s.pending;
      s' := match outcome
        case Ok(r) => State(AfterSet(cache, c.size, c.ttl, Key(req), r, store), pending, s.log + [Fresh(req, r, store)])
        case Err(e) => State(cache, pending, s.log + [Failed(req, e)]);
    }
  }
}
