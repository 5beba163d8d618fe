/** The chat store and one turn over it: internal/chat/postgres/postgres.go and internal/chat/engine.go. */
module Chat {
  import opened Text
  import opened Options
  import Gate

  datatype Role = User | Assistant

  /** `caller` is whose turn wrote the message; it is not stored, and only the properties speak of it. */
  datatype Message = Message(caller: string, role: Role, content: string, explanation: string, at: int)

  /** A thread row with its messages, which are deleted with it. */
  datatype Thread = Thread(owner: string, title: string, updatedAt: int, messages: seq<Message>)

  type Store = map<nat, Thread>

  const MAX_THREADS: nat := 50
  const MAX_TITLE: nat := 60

  function Own(s: Store, user: string): set<nat> {
    set id | id in s && s[id].owner == user
  }

  // ---------------------------------------------------------------------------------------------
  // The statements, each one atomic step.

  predicate Owned(s: Store, user: string, id: nat) {
    id in s && s[id].owner == user
  }

  /** INSERT INTO chat_messages. */
  function Inserted(s: Store, id: nat, m: Message): Store
    requires id in s
  {
    s[id := s[id].(messages := s[id].messages + [m])]
  }

  /** UPDATE chat_threads SET updated_at: no row, no change. */
  function Touched(s: Store, id: nat, at: int): Store {
    if id in s then s[id := s[id].(updatedAt := at)] else s
  }

  /** The two statements of AppendMessage with nothing in between. */
  function Appended(s: Store, id: nat, m: Message): Store
    requires id in s
  {
    Touched(Inserted(s, id, m), id, m.at)
  }

  ghost predicate SortedByTime(messages: seq<Message>) {
    forall i, j :: 0 <= i < j < |messages| ==> messages[i].at <= messages[j].at
  }

  /** SELECT ... ORDER BY created_at: the stored messages by time; the order among equal times is left open. */
  ghost predicate Listing(listed: seq<Message>, stored: seq<Message>) {
    multiset(listed) == multiset(stored) && SortedByTime(listed)
  }

  function InsertByTime(sorted: seq<Message>, m: Message): seq<Message> {
    var n := |sorted| - 1;
    if sorted == [] || sorted[n].at <= m.at then sorted + [m] else InsertByTime(sorted[..n], m) + [sorted[n]]
  }

  function ByTime(stored: seq<Message>): seq<Message> {
    if stored == [] then [] else InsertByTime(ByTime(stored[..|stored| - 1]), stored[|stored| - 1])
  }

  lemma FrontOf(messages: seq<Message>)
    requires messages != []
    ensures var n := |messages| - 1;
            multiset(messages) == multiset(messages[..n]) + multiset{messages[n]}
  {
    assert messages == messages[..|messages| - 1] + [messages[|messages| - 1]];
  }

  lemma {:induction false} InsertedByTime(sorted: seq<Message>, m: Message)
    requires SortedByTime(sorted)
    ensures multiset(InsertByTime(sorted, m)) == multiset(sorted) + multiset{m}
    ensures SortedByTime(InsertByTime(sorted, m))
  {
    var n := |sorted| - 1;
    if sorted == [] || sorted[n].at <= m.at {
    } else {
      var init := InsertByTime(sorted[..n], m);
      InsertedByTime(sorted[..n], m);
      FrontOf(sorted);
      forall i | 0 <= i < |init|
        ensures init[i].at <= sorted[n].at
      {
        assert init[i] in multiset(init);
        assert init[i] == m || init[i] in sorted[..n];
      }
    }
  }

  lemma {:induction false} ByTimeLists(stored: seq<Message>)
    ensures Listing(ByTime(stored), stored)
  {
    if stored == [] {
    } else {
      ByTimeLists(stored[..|stored| - 1]);
      InsertedByTime(ByTime(stored[..|stored| - 1]), stored[|stored| - 1]);
      FrontOf(stored);
    }
  }

  /** The user keeps the most recently updated threads, as many as the cap allows; other users keep all. */
  ghost predicate Capped(s: Store, s': Store, user: string, cap: nat) {
    && (forall id :: id in s' ==> id in s && s'[id] == s[id])
    && (forall id :: id in s && s[id].owner != user ==> id in s')
    && |Own(s', user)| == (if |Own(s, user)| < cap then |Own(s, user)| else cap)
    && (forall kept, gone :: kept in Own(s', user) && gone in Own(s, user) && gone !in s' ==>
        s[gone].updatedAt <= s[kept].updatedAt)
  }

  class Repository {
    var threads: Store
    var nextId: nat

    ghost predicate Valid()
      reads this
    {
      forall id :: id in threads ==> id < nextId
    }

    constructor ()
      ensures Valid() && threads == map[]
    {
      threads, nextId := map[], 0;
    }

    method CreateThread(user: string, title: string, at: int) returns (id: nat)
      requires Valid()
      modifies this
      ensures Valid()
      ensures id !in old(threads) && id >= old(nextId) && nextId == id + 1
      ensures threads == old(threads)[id := Thread(user, title, at, [])]
    {
      id := nextId;
      threads := threads[id := Thread(user, title, at, [])];
      nextId := nextId + 1;
    }

    /** Absent and not owned are the same answer. */
    method GetThreadByID(user: string, id: nat) returns (found: bool)
      ensures found <==> Owned(threads, user, id)
    {
      found := id in threads && threads[id].owner == user;
    }

    method ListMessages(user: string, id: nat) returns (messages: seq<Message>)
      ensures Owned(threads, user, id) ==> Listing(messages, threads[id].messages)
      ensures !Owned(threads, user, id) ==> messages == []
    {
      messages := [];
      if id in threads && threads[id].owner == user {
        messages := ByTime(threads[id].messages);
        ByTimeLists(threads[id].messages);
      }
    }

    /** The insert fails when the thread is gone. */
    method InsertMessage(id: nat, m: Message) returns (ok: bool)
      requires Valid()
      modifies this`threads
      ensures Valid()
      ensures ok <==> id in old(threads)
      ensures threads == if ok then Inserted(old(threads), id, m) else old(threads)
    {
      ok := id in threads;
      if ok {
        threads := Inserted(threads, id, m);
      }
    }

    method TouchThread(id: nat, at: int)
      requires Valid()
      modifies this`threads
      ensures Valid()
      ensures threads == Touched(old(threads), id, at)
    {
      threads := Touched(threads, id, at);
    }

    /** The insert, and then the touch unless the insert failed. */
    method AppendMessage(id: nat, m: Message) returns (ok: bool)
      requires Valid()
      modifies this`threads
      ensures Valid()
      ensures ok <==> id in old(threads)
      ensures threads == if ok then Appended(old(threads), id, m) else old(threads)
    {
      ok := InsertMessage(id, m);
      if ok {
        TouchThread(id, m.at);
      }
    }

    method DeleteThread(user: string, id: nat)
      requires Valid()
      modifies this`threads
      ensures Valid()
      ensures threads == if Owned(old(threads), user, id) then old(threads) - {id} else old(threads)
    {
      if id in threads && threads[id].owner == user {
        threads := threads - {id};
      }
    }

    method ClearThreads(user: string)
      requires Valid()
      modifies this`threads
      ensures Valid()
      ensures threads == old(threads) - Own(old(threads), user)
    {
      threads := threads - Own(threads, user);
    }

    method Oldest(ids: set<nat>) returns (oldest: nat)
      requires ids != {} && ids <= threads.Keys
      ensures oldest in ids && forall id :: id in ids ==> threads[oldest].updatedAt <= threads[id].updatedAt
    {
      oldest :| oldest in ids;
      var rest := ids;
      while rest != {}
        invariant rest <= ids && oldest in ids
        invariant forall id :: id in ids - rest ==> threads[oldest].updatedAt <= threads[id].updatedAt
        decreases |rest|
      {
        var id :| id in rest;
        if threads[id].updatedAt < threads[oldest].updatedAt {
          oldest := id;
        }
        rest := rest - {id};
      }
    }

    /** The rolling eviction: the oldest threads of the user go until the cap holds. */
    method EnforceCap(user: string, cap: nat)
      requires Valid()
      modifies this`threads
      ensures Valid()
      ensures Capped(old(threads), threads, user, cap)
    {
      var own := Own(threads, user);
      while |own| > cap
        invariant own == Own(threads, user) <= Own(old(threads), user)
        invariant forall id :: id in threads ==> id in old(threads) && threads[id] == old(threads)[id]
        invariant forall id :: id in old(threads) && old(threads)[id].owner != user ==> id in threads
        invariant |own| >= cap || threads == old(threads)
        invariant forall kept, gone :: kept in own && gone in Own(old(threads), user) && gone !in threads
                    ==> old(threads)[gone].updatedAt <= old(threads)[kept].updatedAt
        decreases |own|
      {
        var id := Oldest(own);
        threads := threads - {id};
        own := own - {id};
      }
    }
  }

  // ---------------------------------------------------------------------------------------------
  // One turn.

  datatype Reply = NotFound | Failed | Degraded(available: bool) | Answered(message: Message, disclaimer: string)

  function FirstNonEmpty(a: string, b: string): string {
    if a != "" then a else b
  }

  function ReplyContent(i: Gate.Insight): string {
    FirstNonEmpty(TrimSpace(i.detail), TrimSpace(i.explanation))
  }

  predicate Explained(insights: seq<Gate.Insight>) {
    |insights| > 0 && TrimSpace(insights[0].explanation) != ""
  }

  function Title(content: string): string {
    var t := TrimSpace(content);
    if |t| > MAX_TITLE then TrimSpace(t[..MAX_TITLE]) else t
  }

  /** A rejection by the gate is a safe reply; anything else is an outage. */
  function DegradedReply(e: Gate.Error): Reply {
    Degraded(e.AdviceDetected? || e.MissingExplanation?)
  }

  function UserMessage(user: string, content: string, now: int): Message {
    Message(user, User, content, "", now)
  }

  function AssistantMessage(user: string, i: Gate.Insight, now: int): Message {
    Message(user, Assistant, ReplyContent(i), TrimSpace(i.explanation), now)
  }

  /** What resolving the thread does to the store: nothing for an owned one, a new one under the cap otherwise. */
  ghost predicate Resolved(s: Store, mid: Store, user: string, wanted: Option<nat>, title: string, now: int, id: nat) {
    match wanted
    case Some(w) => id == w && Owned(s, user, w) && mid == s
    case None => id !in s && Capped(s[id := Thread(user, title, now, [])], mid, user, MAX_THREADS)
  }

  method ResolveThread(repo: Repository, user: string, wanted: Option<nat>, content: string, now: int)
    returns (found: Option<nat>)
    requires repo.Valid()
    modifies repo
    ensures repo.Valid()
    ensures found == None ==>
              repo.threads == old(repo.threads) && wanted.Some? && !Owned(old(repo.threads), user, wanted.value)
    ensures found.Some? ==> Resolved(old(repo.threads), repo.threads, user, wanted, Title(content), now, found.value)
  {
    if wanted.Some? {
      var ok := repo.GetThreadByID(user, wanted.value);
      return if ok then wanted else None;
    }
    var id := repo.CreateThread(user, Title(content), now);
    repo.EnforceCap(user, MAX_THREADS);
    return Some(id);
  }

  /** A turn writes the user's message, and the assistant's when it is answered. */
  function Written(s: Store, id: nat, user: string, content: string, now: int, reply: Reply): Store
    requires id in s
  {
    var asked := Appended(s, id, UserMessage(user, content, now));
    if reply.Answered? then Appended(asked, id, reply.message) else asked
  }

  /** A turn, with the thread it resolved and the store at that moment. */
  datatype Turn = Turn(user: string, wanted: Option<nat>, content: string, now: int, later: int, grounded: bool,
                       outcome: Gate.Outcome, reply: Reply, mid: Store, id: nat)

  /** Which reply each outcome gives; `gone` says that the resolved thread is no longer there. */
  ghost predicate Replied(gone: bool, t: Turn) {
    var explained := t.outcome.Ok? && Explained(t.outcome.result.insights);
    && t.reply != NotFound
    && (t.reply == Failed <==> gone || !t.grounded)
    && (t.reply.Degraded? <==> !gone && t.grounded && !explained)
    && (t.reply.Degraded? ==> t.reply == DegradedReply(if t.outcome.Err? then t.outcome.error else Gate.Provider(0)))
    && (t.reply.Answered? <==> !gone && t.grounded && explained)
    && (t.reply.Answered? ==>
          && t.reply.message == AssistantMessage(t.user, t.outcome.result.insights[0], t.later)
          && t.reply.disclaimer == FirstNonEmpty(t.outcome.result.disclaimer, Gate.DISCLAIMER))
  }

  /** A turn that resolves its thread and then writes. The insert fails when the thread is gone. */
  ghost predicate TurnStep(s: Store, s': Store, t: Turn) {
    && Resolved(s, t.mid, t.user, t.wanted, Title(t.content), t.now, t.id)
    && Replied(t.id !in t.mid, t)
    && s' == if t.id in t.mid then Written(t.mid, t.id, t.user, t.content, t.now, t.reply) else t.mid
  }

  /** Send. Grounding either works or fails; `outcome` is what the gated insighter returned. */
  method Send(repo: Repository, user: string, wanted: Option<nat>, content: string, now: int, grounded: bool,
              outcome: Gate.Outcome, later: int)
    returns (reply: Reply)
    requires repo.Valid()
    modifies repo
    ensures repo.Valid()
    ensures reply == NotFound <==> wanted.Some? && !Owned(old(repo.threads), user, wanted.value)
    ensures reply == NotFound ==> repo.threads == old(repo.threads)
    ensures reply != NotFound ==>
              exists mid, id :: TurnStep(old(repo.threads), repo.threads,
                                         Turn(user, wanted, content, now, later, grounded, outcome, reply, mid, id))
    ensures wanted.Some? && reply != NotFound ==>
              && (reply == Failed <==> !grounded)
              && (reply.Answered? <==> grounded && outcome.Ok? && Explained(outcome.result.insights))
              && (reply == Degraded(true) <==> grounded && (outcome == Gate.Err(Gate.AdviceDetected)
                                                            || outcome == Gate.Err(Gate.MissingExplanation)))
  {
    var found := ResolveThread(repo, user, wanted, content, now);
    if found == None {
      return NotFound;
    }
    var id := found.value;
    ghost var turn := Turn(user, wanted, content, now, later, grounded, outcome, Failed, repo.threads, id);
    var ok := repo.AppendMessage(id, UserMessage(user, content, now));
    if !ok {
      assert TurnStep(old(repo.threads), repo.threads, turn);
      return Failed;
    }
    if !grounded {
      assert TurnStep(old(repo.threads), repo.threads, turn);
      return Failed;
    }
    if outcome.Err? {
      reply := DegradedReply(outcome.error);
      assert TurnStep(old(repo.threads), repo.threads, turn.(reply := reply));
      return;
    }
    if !Explained(outcome.result.insights) {
      reply := DegradedReply(Gate.Provider(0));
      assert TurnStep(old(repo.threads), repo.threads, turn.(reply := reply));
      return;
    }
    var m := AssistantMessage(user, outcome.result.insights[0], later);
    ok := repo.AppendMessage(id, m);
    reply := Answered(m, FirstNonEmpty(outcome.result.disclaimer, Gate.DISCLAIMER));
    assert TurnStep(old(repo.threads), repo.threads, turn.(reply := reply));
  }

  // ---------------------------------------------------------------------------------------------
  // What a turn says and stores.

  /** An explanation that is not blank explains; then a detail that is not blank is the content, trimmed. */
  lemma ContentOfReply(i: Gate.Insight, rest: seq<Gate.Insight>)
    ensures Explained([i] + rest) <==> !Blank(i.explanation)
    ensures !Explained([])
    ensures ReplyContent(i) == if Blank(i.detail) then TrimSpace(i.explanation) else TrimSpace(i.detail)
  {
    TrimBlank(i.explanation);
    TrimBlank(i.detail);
  }

  /** A title is the trimmed text, or what its first 60 characters leave when white space goes from their end. */
  lemma TitleOfText(content: string)
    ensures var (t, title) := (TrimSpace(content), Title(content));
            if |t| <= 60 then title == t
            else
              && 0 < |title| <= 60 && title == t[..|title|] && !IsGoSpace(title[|title| - 1])
              && Blank(t[|title|..60])
  {
    var t := TrimSpace(content);
    if |t| > 60 {
      var a, b := TrimBounds(content, IsGoSpace);
      assert t[0] == content[a];
      TrimSpaceStops(t[..60], 0);
      var c, d := TrimBounds(t[..60], IsGoSpace);
      assert c == 0;
      assert t[..60][..d] == t[..d];
    }
  }

  /** The thread with the question, and with the reply behind it when the turn is answered. */
  function Told(before: Thread, t: Turn): Thread {
    var question := Message(t.user, User, t.content, "", t.now);
    if t.reply.Answered? then before.(messages := before.messages + [question, t.reply.message], updatedAt := t.later)
    else before.(messages := before.messages + [question], updatedAt := t.now)
  }

  /**
   A turn on an owned thread writes the question under the first reading of the clock, and an answered one its
   reply under the second, with the trimmed detail, or explanation, as content; nothing else changes. The
   disclaimer is the result's own, if it has one.
   */
  lemma OwnedTurnWrites(s: Store, s': Store, t: Turn)
    requires TurnStep(s, s', t) && t.wanted.Some?
    ensures t.wanted == Some(t.id) && Owned(s, t.user, t.id)
    ensures s' == s[t.id := Told(s[t.id], t)]
    ensures t.reply.Answered? ==>
              && t.outcome.Ok? && t.outcome.result.insights != []
              && var r := t.outcome.result;
                 var i := r.insights[0];
                 var content := TrimSpace(if Blank(i.detail) then i.explanation else i.detail);
                 && t.reply.message == Message(t.user, Assistant, content, TrimSpace(i.explanation), t.later)
                 && !Blank(i.explanation)
                 && t.reply.disclaimer == (if r.disclaimer == "" then Gate.DISCLAIMER else r.disclaimer)
                 && t.reply.disclaimer != ""
  {
    if t.reply.Answered? {
      var i := t.outcome.result.insights[0];
      ContentOfReply(i, t.outcome.result.insights[1..]);
      TrimBlank(i.explanation);
    }
    ToldInOrder(s[t.id].messages, UserMessage(t.user, t.content, t.now));
  }

  lemma ToldInOrder(messages: seq<Message>, question: Message)
    ensures forall reply: Message :: (messages + [question]) + [reply] == messages + [question, reply]
  {
  }

  /** A turn without a thread opens one under its title and writes to it, unless the cap takes it away at once. */
  lemma NewTurnWrites(s: Store, s': Store, t: Turn)
    requires TurnStep(s, s', t) && t.wanted.None?
    ensures t.id !in s
    ensures Capped(s[t.id := Thread(t.user, Title(t.content), t.now, [])], t.mid, t.user, 50)
    ensures s' == if t.id in t.mid then t.mid[t.id := Told(Thread(t.user, Title(t.content), t.now, []), t)] else t.mid
  {
    ToldInOrder([], UserMessage(t.user, t.content, t.now));
  }

  /** The message an answered turn stores is explained and has content. */
  ghost predicate Usable(m: Message) {
    m.role == Assistant ==> !Blank(m.explanation) && !Blank(m.content)
  }

  lemma TrimKeepsInk(s: string)
    requires TrimSpace(s) != ""
    ensures !Blank(TrimSpace(s))
  {
    TrimFixed(s, IsGoSpace);
    TrimBlank(TrimSpace(s));
  }

  lemma ExplainedIsUsable(user: string, insights: seq<Gate.Insight>, now: int)
    requires Explained(insights)
    ensures Usable(AssistantMessage(user, insights[0], now))
  {
    TrimKeepsInk(insights[0].explanation);
    if TrimSpace(insights[0].detail) != "" {
      TrimKeepsInk(insights[0].detail);
    }
  }

  // ---------------------------------------------------------------------------------------------
  // One turn after another, under a clock that moves forward.

  /** Starts with the user, and never has two assistant messages in a row. */
  ghost predicate Alternating(messages: seq<Message>) {
    forall i :: 0 <= i < |messages| && messages[i].role == Assistant ==> i > 0 && messages[i - 1].role == User
  }

  /** Each message is later than those before it, and earlier than the clock. */
  ghost predicate InTime(messages: seq<Message>, clock: int) {
    && (forall i, j :: 0 <= i < j < |messages| ==> messages[i].at < messages[j].at)
    && (forall i :: 0 <= i < |messages| ==> messages[i].at < clock)
  }

  lemma SameLength(a: seq<Message>, b: seq<Message>)
    requires multiset(a) == multiset(b)
    ensures |a| == |b|
  {
    assert |a| == |multiset(a)| == |multiset(b)|;
  }

  lemma SameFront(a: seq<Message>, b: seq<Message>)
    requires a != [] && b != [] && multiset(a) == multiset(b) && a[|a| - 1] == b[|b| - 1]
    ensures multiset(a[..|a| - 1]) == multiset(b[..|b| - 1])
  {
    FrontOf(a);
    FrontOf(b);
    assert multiset(a[..|a| - 1]) == multiset(a) - multiset{a[|a| - 1]};
    assert multiset(b[..|b| - 1]) == multiset(b) - multiset{b[|b| - 1]};
  }

  /** What is listed is then what was written, in that order. */
  lemma {:induction false} ListedAsWritten(listed: seq<Message>, stored: seq<Message>, clock: int)
    requires Listing(listed, stored) && InTime(stored, clock)
    ensures listed == stored
  {
    SameLength(listed, stored);
    if stored == [] {
    } else {
      var n := |stored| - 1;
      LastListed(listed, stored, clock);
      SameFront(listed, stored);
      ListedAsWritten(listed[..n], stored[..n], clock);
      assert stored == stored[..n] + [stored[n]] && listed == listed[..n] + [listed[n]];
    }
  }

  lemma LastListed(listed: seq<Message>, stored: seq<Message>, clock: int)
    requires Listing(listed, stored) && InTime(stored, clock) && |listed| == |stored| > 0
    ensures listed[|listed| - 1] == stored[|stored| - 1]
  {
    var n := |stored| - 1;
    assert listed[n] in multiset(listed) && stored[n] in multiset(stored);
    var i :| 0 <= i <= n && stored[i] == listed[n];
    var j :| 0 <= j <= n && listed[j] == stored[n];
    assert listed[j].at <= listed[n].at;
  }

  ghost predicate ThreadInStep(t: Thread, clock: int) {
    && t.updatedAt < clock && Alternating(t.messages) && InTime(t.messages, clock)
    && forall i :: 0 <= i < |t.messages| ==> Usable(t.messages[i]) && t.messages[i].caller == t.owner
  }

  /** A thread of the user's, on which every message is older than the turn. */
  ghost predicate ReadyFor(t: Thread, user: string, now: int) {
    && t.owner == user && Alternating(t.messages) && InTime(t.messages, now)
    && forall i :: 0 <= i < |t.messages| ==> Usable(t.messages[i]) && t.messages[i].caller == t.owner
  }

  ghost predicate InStep(s: Store, clock: int) {
    forall id :: id in s ==> ThreadInStep(s[id], clock)
  }

  /** With an older clock everywhere else, the thread just created survives the cap. */
  lemma CapKeepsNewest(s: Store, mid: Store, user: string, title: string, now: int, id: nat)
    requires forall k :: k in s ==> s[k].updatedAt < now
    requires Resolved(s, mid, user, None, title, now, id)
    ensures id in mid
  {
    var inserted := s[id := Thread(user, title, now, [])];
    assert id in Own(inserted, user);
    assert |Own(mid, user)| > 0;
    var kept :| kept in Own(mid, user);
    assert kept in Own(inserted, user);
  }

  lemma ThreadTakes(t: Thread, clock: int, m: Message)
    requires ThreadInStep(t, clock) && clock <= m.at && Usable(m) && m.caller == t.owner
    requires m.role == Assistant ==> t.messages != [] && t.messages[|t.messages| - 1].role == User
    ensures ThreadInStep(t.(messages := t.messages + [m], updatedAt := m.at), m.at + 1)
  {
  }

  /** The user's message, on a thread whose own messages are older than the turn. */
  lemma TurnOnThread(t: Thread, now: int, user: string, content: string)
    requires ReadyFor(t, user, now)
    ensures ThreadInStep(t.(messages := t.messages + [UserMessage(user, content, now)], updatedAt := now), now + 1)
  {
    ThreadTakes(t.(updatedAt := now - 1), now, UserMessage(user, content, now));
  }

  lemma ResolvedThread(s: Store, mid: Store, user: string, wanted: Option<nat>, title: string, now: int, id: nat)
    requires InStep(s, now) && Resolved(s, mid, user, wanted, title, now, id)
    ensures id in mid && ReadyFor(mid[id], user, now)
    ensures forall k :: k in mid && k != id ==> k in s && mid[k] == s[k]
  {
    if wanted == None {
      CapKeepsNewest(s, mid, user, title, now, id);
    }
  }

  /** A turn alone keeps every thread in step, and never loses its own thread to the cap. */
  lemma TurnsStayInStep(s: Store, s': Store, t: Turn)
    requires InStep(s, t.now) && TurnStep(s, s', t) && t.now < t.later
    ensures t.id in t.mid && InStep(s', t.later + 1)
    ensures t.grounded && t.outcome.Ok? && Explained(t.outcome.result.insights) ==> t.reply.Answered?
  {
    ResolvedThread(s, t.mid, t.user, t.wanted, Title(t.content), t.now, t.id);
    TurnWrites(s, t);
  }

  lemma TurnWrites(s: Store, t: Turn)
    requires InStep(s, t.now) && t.now < t.later && t.id in t.mid && Replied(false, t)
    requires ReadyFor(t.mid[t.id], t.user, t.now)
    requires forall k :: k in t.mid && k != t.id ==> k in s && t.mid[k] == s[k]
    ensures InStep(Written(t.mid, t.id, t.user, t.content, t.now, t.reply), t.later + 1)
  {
    WrittenThread(t);
    WrittenElsewhere(t);
    OthersInStep(s, Written(t.mid, t.id, t.user, t.content, t.now, t.reply), t.id, t.now, t.later + 1);
  }

  lemma OthersInStep(s: Store, s': Store, id: nat, clock: int, later: int)
    requires InStep(s, clock) && clock <= later && id in s' && ThreadInStep(s'[id], later)
    requires forall k :: k in s' && k != id ==> k in s && s'[k] == s[k]
    ensures InStep(s', later)
  {
    forall k | k in s'
      ensures ThreadInStep(s'[k], later)
    {
      if k != id {
        ThreadClock(s[k], clock, later);
      }
    }
  }

  lemma WrittenElsewhere(t: Turn)
    requires t.id in t.mid
    ensures var s' := Written(t.mid, t.id, t.user, t.content, t.now, t.reply);
            t.id in s' && forall k :: k in s' && k != t.id ==> k in t.mid && s'[k] == t.mid[k]
  {
  }

  lemma WrittenThread(t: Turn)
    requires t.id in t.mid && t.now < t.later && Replied(false, t)
    requires ReadyFor(t.mid[t.id], t.user, t.now)
    ensures ThreadInStep(Written(t.mid, t.id, t.user, t.content, t.now, t.reply)[t.id], t.later + 1)
  {
    var asked := Appended(t.mid, t.id, UserMessage(t.user, t.content, t.now))[t.id];
    TurnOnThread(t.mid[t.id], t.now, t.user, t.content);
    ThreadClock(asked, t.now + 1, t.later);
    if t.reply.Answered? {
      ExplainedIsUsable(t.user, t.outcome.result.insights, t.later);
      ThreadTakes(asked, t.later, t.reply.message);
    } else {
      ThreadClock(asked, t.later, t.later + 1);
    }
  }

  lemma ThreadClock(t: Thread, clock: int, later: int)
    requires ThreadInStep(t, clock) && clock <= later
    ensures ThreadInStep(t, later)
  {
  }
}
