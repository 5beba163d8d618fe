/** Whole runs over the chat store: the clock readings and statements of many turns, interleaved in any order. */
module ChatRuns {
  import opened Arithmetic
  import opened Chat
  import opened Text
  import opened Options
  import Gate

  // ---------------------------------------------------------------------------------------------
  // The steps.

  /**
   How far a turn is: it has read the clock, created a thread, resolved its thread, inserted the question,
   touched the thread, read the clock again, inserted the answer. It ends before the question (Quit), without
   an answer (Dropped), or answered (Done).
   */
  datatype Stage = Began | Uncapped | Ready | Asked | Waiting | Timed | Answering | Quit | Dropped | Done

  /** A turn: its caller, the thread it names or has created, its content, and its two readings of the clock. */
  datatype Call = Call(user: string, thread: Option<nat>, content: string, now: int, later: int, stage: Stage)

  /**
   `used` are the ids given out so far; `created` counts a user's new threads since the last cap that went
   through.
   */
  datatype State = State(threads: Store, used: set<nat>, calls: map<nat, Call>, created: map<string, nat>, clock: int)

  const START: State := State(map[], {}, map[], map[], 0)

  datatype Step =
    | Begin(call: nat, user: string, wanted: Option<nat>, content: string, at: int)
    | Resolve(call: nat)
    | Create(call: nat, thread: nat)
    | Cap(call: nat)
    | Ask(call: nat)
    | Touch(call: nat)
    | Time(call: nat, at: int)
    | Answer(call: nat, insights: seq<Gate.Insight>)
    | End(call: nat)
    | Delete(user: string, thread: nat)
    | Clear(user: string)

  function CreatedSince(s: State, user: string): nat {
    if user in s.created then s.created[user] else 0
  }

  predicate In(s: State, call: nat, stage: Stage) {
    call in s.calls && s.calls[call].stage == stage
  }

  predicate HasThread(s: State, call: nat)
    requires call in s.calls
  {
    s.calls[call].thread.Some? && s.calls[call].thread.value in s.threads
  }

  function Moved(s: State, call: nat, stage: Stage): State
    requires call in s.calls
  {
    s.(calls := s.calls[call := s.calls[call].(stage := stage)])
  }

  /** The turn has created this thread. */
  function WithThread(s: State, k: nat, id: nat): State
    requires k in s.calls
  {
    var c := s.calls[k];
    State(s.threads[id := Thread(c.user, Title(c.content), c.now, [])], s.used + {id},
          s.calls[k := c.(thread := Some(id), stage := Uncapped)],
          s.created[c.user := CreatedSince(s, c.user) + 1], s.clock)
  }

  function Question(c: Call): Message {
    UserMessage(c.user, c.content, c.now)
  }

  function Ended(stage: Stage): Stage {
    match stage
    case Began => Quit
    case Uncapped => Quit
    case Ready => Quit
    case Asked => Dropped
    case Waiting => Dropped
    case Timed => Dropped
    case Answering => Done
    case _ => stage
  }

  /** Inside one turn the stages come in the order of the code; between turns there is no order. */
  ghost predicate Next(s: State, s': State, step: Step) {
    match step
    case Begin(k, user, wanted, content, at) =>
      k !in s.calls && s' == s.(calls := s.calls[k := Call(user, wanted, content, at, at, Began)], clock := at)
    case Resolve(k) =>
      && In(s, k, Began) && s.calls[k].thread.Some? && Owned(s.threads, s.calls[k].user, s.calls[k].thread.value)
      && s' == Moved(s, k, Ready)
    case Create(k, id) =>
      In(s, k, Began) && s.calls[k].thread.None? && id !in s.used && s' == WithThread(s, k, id)
    case Cap(k) =>
      && In(s, k, Uncapped) && Capped(s.threads, s'.threads, s.calls[k].user, MAX_THREADS)
      && s' == Moved(s, k, Ready).(threads := s'.threads, created := s.created[s.calls[k].user := 0])
    case Ask(k) =>
      // the inserts fail when the thread is gone
      && In(s, k, Ready) && HasThread(s, k)
      && s' == Moved(s, k, Asked).(threads := Inserted(s.threads, s.calls[k].thread.value, Question(s.calls[k])))
    case Touch(k) =>
      && (In(s, k, Asked) || In(s, k, Answering)) && s.calls[k].thread.Some?
      && var c := s.calls[k];
         s' == Moved(s, k, if c.stage == Asked then Waiting else Done)
               .(threads := Touched(s.threads, c.thread.value, if c.stage == Asked then c.now else c.later))
    case Time(k, at) =>
      In(s, k, Waiting) && s' == s.(calls := s.calls[k := s.calls[k].(later := at, stage := Timed)], clock := at)
    case Answer(k, insights) =>
      && In(s, k, Timed) && HasThread(s, k) && Explained(insights)
      && var c := s.calls[k];
         s' == Moved(s, k, Answering)
               .(threads := Inserted(s.threads, c.thread.value, AssistantMessage(c.user, insights[0], c.later)))
    case End(k) =>
      k in s.calls && s' == Moved(s, k, Ended(s.calls[k].stage))
    case Delete(user, id) =>
      s' == s.(threads := if Owned(s.threads, user, id) then s.threads - {id} else s.threads)
    case Clear(user) =>
      s' == s.(threads := s.threads - Own(s.threads, user))
  }

  ghost predicate Path(run: seq<State>, steps: seq<Step>) {
    |run| == |steps| + 1 && forall i :: 0 <= i < |steps| ==> Next(run[i], run[i + 1], steps[i])
  }

  ghost predicate Behaviour(run: seq<State>, steps: seq<Step>) {
    Path(run, steps) && run[0] == START
  }

  // ---------------------------------------------------------------------------------------------
  // What holds in every state.

  /** Every message was written by the thread's owner, and every assistant message has an explanation and content. */
  ghost predicate MessagesSafe(s: Store) {
    forall id, i :: id in s && 0 <= i < |s[id].messages| ==>
      s[id].messages[i].caller == s[id].owner && Usable(s[id].messages[i])
  }

  /** From here on the thread is resolved. */
  predicate Placed(stage: Stage) {
    !stage.Began? && !stage.Quit?
  }

  /** A resolved thread stays its caller's for as long as it exists: ids are not given out twice. */
  ghost predicate CallsSafe(s: State) {
    && s.threads.Keys <= s.used
    && forall k :: k in s.calls && Placed(s.calls[k].stage) ==>
         && s.calls[k].thread.Some? && s.calls[k].thread.value in s.used
         && (s.calls[k].thread.value in s.threads ==> s.threads[s.calls[k].thread.value].owner == s.calls[k].user)
  }

  ghost predicate CountsSafe(s: State) {
    forall user :: |Own(s.threads, user)| <= 50 + CreatedSince(s, user)
  }

  lemma InsertIsSafe(s: Store, id: nat, m: Message)
    requires id in s && MessagesSafe(s) && m.caller == s[id].owner && Usable(m)
    ensures MessagesSafe(Inserted(s, id, m))
  {
  }

  lemma StepKeepsMessages(s: State, s': State, step: Step)
    requires Next(s, s', step) && MessagesSafe(s.threads) && CallsSafe(s)
    ensures MessagesSafe(s'.threads)
  {
    match step
    case Ask(k) =>
      InsertIsSafe(s.threads, s.calls[k].thread.value, Question(s.calls[k]));
    case Answer(k, insights) =>
      var c := s.calls[k];
      ExplainedIsUsable(c.user, insights, c.later);
      InsertIsSafe(s.threads, c.thread.value, AssistantMessage(c.user, insights[0], c.later));
    case _ =>
  }

  lemma StepKeepsCalls(s: State, s': State, step: Step)
    requires Next(s, s', step) && CallsSafe(s)
    ensures CallsSafe(s') && s.used <= s'.used
  {
  }

  lemma OwnGrows(s: State, s': State, step: Step, user: string)
    requires Next(s, s', step)
    ensures if step.Create? && s.calls[step.call].user == user
            then Own(s'.threads, user) <= Own(s.threads, user) + {step.thread}
            else Own(s'.threads, user) <= Own(s.threads, user)
  {
  }

  /** No statement but Create gives anyone a thread, and no statement but Cap forgets a creation. */
  lemma StepKeepsCount(s: State, s': State, step: Step, user: string)
    requires Next(s, s', step) && |Own(s.threads, user)| <= 50 + CreatedSince(s, user)
    ensures |Own(s'.threads, user)| <= 50 + CreatedSince(s', user)
  {
    OwnGrows(s, s', step, user);
    if step.Create? && s.calls[step.call].user == user {
      SubsetSize(Own(s'.threads, user), Own(s.threads, user) + {step.thread});
    } else {
      SubsetSize(Own(s'.threads, user), Own(s.threads, user));
    }
  }

  lemma StepKeepsCounts(s: State, s': State, step: Step)
    requires Next(s, s', step) && CountsSafe(s)
    ensures CountsSafe(s')
  {
    forall user
      ensures |Own(s'.threads, user)| <= 50 + CreatedSince(s', user)
    {
      StepKeepsCount(s, s', step, user);
    }
  }

  /**
   In every reachable state, whatever the interleaving: messages only ever went into threads their caller owns,
   every assistant message carries an explanation and content, and a user has at most 50 threads plus those
   created since that user's last cap.
   */
  lemma {:induction false} EveryStateIsSafe(run: seq<State>, steps: seq<Step>, n: nat)
    requires Behaviour(run, steps) && n < |run|
    ensures MessagesSafe(run[n].threads) && CallsSafe(run[n]) && CountsSafe(run[n])
  {
    if n == 0 {
      assert forall user :: Own(START.threads, user) == {};
    } else {
      EveryStateIsSafe(run, steps, n - 1);
      assert Next(run[n - 1], run[n - 1 + 1], steps[n - 1]);
      StepKeepsMessages(run[n - 1], run[n], steps[n - 1]);
      StepKeepsCalls(run[n - 1], run[n], steps[n - 1]);
      StepKeepsCounts(run[n - 1], run[n], steps[n - 1]);
    }
  }

  // ---------------------------------------------------------------------------------------------
  // Alternation of one thread.

  /** The turn has asked on the thread and is not at its end. */
  predicate Asking(c: Call, id: nat) {
    c.thread == Some(id) && (c.stage.Asked? || c.stage.Waiting? || c.stage.Timed?)
  }

  /** No two turns on this thread are between their question and their end. Turns on other threads are free. */
  ghost predicate OneAsks(s: State, id: nat) {
    forall a, b :: a in s.calls && b in s.calls && Asking(s.calls[a], id) && Asking(s.calls[b], id) ==> a == b
  }

  predicate EndsWithUser(messages: seq<Message>) {
    messages != [] && messages[|messages| - 1].role == User
  }

  ghost predicate InTurn(s: State, id: nat) {
    id in s.threads ==>
      && Alternating(s.threads[id].messages)
      && ((exists k :: k in s.calls && Asking(s.calls[k], id)) ==> EndsWithUser(s.threads[id].messages))
  }

  /** The step inserts a message into this thread. */
  predicate Writes(s: State, step: Step, id: nat) {
    (step.Ask? || step.Answer?) && step.call in s.calls && s.calls[step.call].thread == Some(id)
  }

  /** What such a step inserts. */
  function MessageOf(s: State, step: Step): Message
    requires step.Ask? || (step.Answer? && |step.insights| > 0)
    requires step.call in s.calls
  {
    var c := s.calls[step.call];
    if step.Ask? then Question(c) else AssistantMessage(c.user, step.insights[0], c.later)
  }

  /** Any other step leaves the messages of a thread alone, and lets no turn on it ask or answer. */
  lemma QuietStep(s: State, s': State, step: Step, id: nat)
    requires Next(s, s', step) && CallsSafe(s) && !Writes(s, step, id) && id in s.threads && id in s'.threads
    ensures s'.threads[id].messages == s.threads[id].messages
    ensures forall k :: k in s'.calls && Asking(s'.calls[k], id) ==> k in s.calls && Asking(s.calls[k], id)
  {
  }

  /** The step inserts this thread's next message. */
  ghost predicate WritesNext(s: State, s': State, step: Step, id: nat) {
    && (step.Ask? || (step.Answer? && |step.insights| > 0)) && step.call in s.calls
    && var c := s.calls[step.call];
    && c.thread == Some(id) && c.stage == (if step.Ask? then Ready else Timed)
    && s'.calls == s.calls[step.call := c.(stage := if step.Ask? then Asked else Answering)] && s'.clock == s.clock
    && id in s.threads && id in s'.threads
    && s'.threads[id].messages == s.threads[id].messages + [MessageOf(s, step)]
  }

  lemma WritingStep(s: State, s': State, step: Step, id: nat)
    requires Next(s, s', step) && Writes(s, step, id)
    ensures WritesNext(s, s', step, id)
  {
  }

  lemma WritesInTurn(s: State, s': State, step: Step, id: nat)
    requires WritesNext(s, s', step, id) && OneAsks(s, id) && InTurn(s, id)
    ensures InTurn(s', id)
  {
    if step.Answer? {
      assert Asking(s.calls[step.call], id);
      assert forall k :: k in s'.calls ==> !Asking(s'.calls[k], id);
    }
  }

  lemma StepKeepsTurn(s: State, s': State, step: Step, id: nat)
    requires Next(s, s', step) && CallsSafe(s) && OneAsks(s, id) && InTurn(s, id)
    ensures InTurn(s', id)
  {
    if Writes(s, step, id) {
      WritingStep(s, s', step, id);
      WritesInTurn(s, s', step, id);
    } else if id in s.threads && id in s'.threads {
      QuietStep(s, s', step, id);
    }
  }

  /** A thread alternates as long as no two turns on it overlap between their question and their end. */
  lemma {:induction false} ThreadAlternates(run: seq<State>, steps: seq<Step>, n: nat, id: nat)
    requires Behaviour(run, steps) && n < |run|
    requires forall i :: 0 <= i < n ==> OneAsks(run[i], id)
    ensures InTurn(run[n], id)
    ensures id in run[n].threads ==> Alternating(run[n].threads[id].messages)
  {
    if n == 0 {
    } else {
      ThreadAlternates(run, steps, n - 1, id);
      EveryStateIsSafe(run, steps, n - 1);
      assert Next(run[n - 1], run[n - 1 + 1], steps[n - 1]);
      StepKeepsTurn(run[n - 1], run[n], steps[n - 1], id);
    }
  }

  // ---------------------------------------------------------------------------------------------
  // The converse, when every question was answered.

  /** The turns that have asked on the thread and have not answered. */
  function Unanswered(s: State, id: nat): set<nat> {
    set k | k in s.calls && s.calls[k].thread == Some(id)
            && (Asking(s.calls[k], id) || s.calls[k].stage.Dropped?)
  }

  function Sign(): Message -> int {
    (m: Message) => if m.role == User then 1 else -1
  }

  /** User messages less assistant messages. */
  function Surplus(messages: seq<Message>): int {
    SumOf(messages, Sign())
  }

  lemma SurplusSnoc(messages: seq<Message>, m: Message)
    ensures Surplus(messages + [m]) == Surplus(messages) + if m.role == User then 1 else -1
  {
    assert (messages + [m])[..|messages|] == messages;
  }

  ghost predicate Counted(s: State, id: nat) {
    id in s.threads ==> Surplus(s.threads[id].messages) == |Unanswered(s, id)|
  }

  lemma QuietUnanswered(s: State, s': State, step: Step, id: nat)
    requires Next(s, s', step) && CallsSafe(s) && !Writes(s, step, id) && id in s.used
    ensures Unanswered(s', id) == Unanswered(s, id)
  {
  }

  lemma WritingUnanswered(s: State, s': State, step: Step, id: nat)
    requires Next(s, s', step) && Writes(s, step, id)
    ensures step.Ask? ==> Unanswered(s', id) == Unanswered(s, id) + {step.call} && step.call !in Unanswered(s, id)
    ensures step.Answer? ==> Unanswered(s', id) == Unanswered(s, id) - {step.call} && step.call in Unanswered(s, id)
  {
    WritingStep(s, s', step, id);
  }

  lemma StepKeepsCounted(s: State, s': State, step: Step, id: nat)
    requires Next(s, s', step) && CallsSafe(s) && Counted(s, id)
    ensures Counted(s', id)
  {
    if Writes(s, step, id) {
      WritingStep(s, s', step, id);
      WritingUnanswered(s, s', step, id);
      SurplusSnoc(s.threads[id].messages, MessageOf(s, step));
    } else if id in s.threads && id in s'.threads {
      QuietStep(s, s', step, id);
      QuietUnanswered(s, s', step, id);
    } else if id in s'.threads {
      FirstStep(s, s', step, id);
    }
  }

  lemma FirstStep(s: State, s': State, step: Step, id: nat)
    requires Next(s, s', step) && CallsSafe(s)
    ensures id !in s.threads && id in s'.threads ==> s'.threads[id].messages == [] && Unanswered(s', id) == {}
  {
    if id !in s.threads && id in s'.threads {
      assert step.Create? && step.thread == id;
    }
  }

  lemma {:induction false} EveryStateIsCounted(run: seq<State>, steps: seq<Step>, n: nat, id: nat)
    requires Behaviour(run, steps) && n < |run|
    ensures Counted(run[n], id)
  {
    if n == 0 {
    } else {
      EveryStateIsCounted(run, steps, n - 1, id);
      EveryStateIsSafe(run, steps, n - 1);
      assert Next(run[n - 1], run[n - 1 + 1], steps[n - 1]);
      StepKeepsCounted(run[n - 1], run[n], steps[n - 1], id);
    }
  }

  /** Messages are only ever added at the end, and a thread that is gone does not come back. */
  lemma {:induction false} MessagesGrow(run: seq<State>, steps: seq<Step>, i: nat, n: nat, id: nat)
    requires Behaviour(run, steps) && i <= n < |run| && id in run[i].used && id in run[n].threads
    ensures id in run[i].threads && run[i].threads[id].messages <= run[n].threads[id].messages
    decreases n - i
  {
    if i == n {
    } else {
      EveryStateIsSafe(run, steps, i);
      assert Next(run[i], run[i + 1], steps[i]);
      StepKeepsCalls(run[i], run[i + 1], steps[i]);
      MessagesGrow(run, steps, i + 1, n, id);
    }
  }

  /** In an alternating sequence every question but the last is answered before the next. */
  lemma {:induction false} SurplusFalls(messages: seq<Message>, i: nat)
    requires Alternating(messages) && i <= |messages|
    ensures Surplus(messages) >= Surplus(messages[..i]) - if messages != [] && !EndsWithUser(messages) then 1 else 0
  {
    var n := |messages| - 1;
    if i < |messages| {
      assert messages[..n][..i] == messages[..i];
      assert forall j :: 0 <= j < n ==> messages[..n][j] == messages[j];
      SurplusFalls(messages[..n], i);
    } else {
      assert messages[..i] == messages;
    }
  }

  lemma TwoAsking(s: State, id: nat, a: nat, b: nat)
    requires a in s.calls && b in s.calls && a != b && Asking(s.calls[a], id) && Asking(s.calls[b], id)
    ensures |Unanswered(s, id)| >= 2
  {
    SubsetSize({a, b}, Unanswered(s, id));
  }

  lemma AskedInTurn(run: seq<State>, steps: seq<Step>, n: nat, id: nat, i: nat)
    requires Behaviour(run, steps) && i <= n < |run| && id in run[n].threads && Unanswered(run[n], id) == {}
    requires Alternating(run[n].threads[id].messages)
    ensures OneAsks(run[i], id)
  {
    EveryStateIsSafe(run, steps, i);
    if id in run[i].used {
      MessagesGrow(run, steps, i, n, id);
      EveryStateIsCounted(run, steps, i, id);
      EveryStateIsCounted(run, steps, n, id);
      var m := run[n].threads[id].messages;
      assert run[i].threads[id].messages == m[..|run[i].threads[id].messages|];
      SurplusFalls(m, |run[i].threads[id].messages|);
      forall a, b | a in run[i].calls && b in run[i].calls && Asking(run[i].calls[a], id) && Asking(run[i].calls[b], id)
        ensures a == b
      {
        if a != b {
          TwoAsking(run[i], id, a, b);
        }
      }
    }
  }

  /**
   A thread on which every question was answered alternates exactly when no two of its turns ever overlapped
   between their question and their answer.
   */
  lemma AlternatesIffNoOverlap(run: seq<State>, steps: seq<Step>, n: nat, id: nat)
    requires Behaviour(run, steps) && n < |run| && id in run[n].threads && Unanswered(run[n], id) == {}
    ensures Alternating(run[n].threads[id].messages) <==> forall i :: 0 <= i <= n ==> OneAsks(run[i], id)
  {
    if forall i :: 0 <= i <= n ==> OneAsks(run[i], id) {
      ThreadAlternates(run, steps, n, id);
    }
    if Alternating(run[n].threads[id].messages) {
      forall i | 0 <= i <= n
        ensures OneAsks(run[i], id)
      {
        AskedInTurn(run, steps, n, id, i);
      }
    }
  }

  // ---------------------------------------------------------------------------------------------
  // What a step does to the turns.

  predicate HasAsked(c: Call) {
    c.stage.Asked? || c.stage.Waiting? || c.stage.Timed? || c.stage.Dropped? || HasAnswered(c)
  }

  predicate HasTimed(c: Call) {
    c.stage.Timed? || HasAnswered(c)
  }

  predicate HasAnswered(c: Call) {
    c.stage.Answering? || c.stage.Done?
  }

  predicate Reads(step: Step) {
    step.Begin? || step.Time?
  }

  predicate OtherCall(step: Step, k: nat) {
    step.Delete? || step.Clear? || k != step.call
  }

  /** A step of a turn moves that turn and no other, and keeps what it has read and written. */
  ghost predicate OneMoves(s: State, s': State, step: Step) {
    && (step.Delete? || step.Clear? ==> s'.calls == s.calls)
    && (step.Begin? ==>
          && step.call !in s.calls && s'.calls.Keys == s.calls.Keys + {step.call}
          && Fresh(s'.calls[step.call], step))
    && (!step.Begin? && !step.Delete? && !step.Clear? ==>
          && step.call in s.calls && s'.calls.Keys == s.calls.Keys
          && Follows(s.calls[step.call], s'.calls[step.call], step))
    && (forall k :: k in s.calls && k in s'.calls && OtherCall(step, k) ==> s'.calls[k] == s.calls[k])
    && s'.clock == if Reads(step) then step.at else s.clock
  }

  predicate Fresh(c: Call, step: Step) {
    step.Begin? && c.now == step.at == c.later && c.stage == Began
  }

  lemma OneCallMoves(s: State, s': State, step: Step)
    requires Next(s, s', step)
    ensures OneMoves(s, s', step)
  {
    if !step.Begin? && !step.Delete? && !step.Clear? {
      CallFollows(s, s', step);
    }
  }

  lemma CallFollows(s: State, s': State, step: Step)
    requires Next(s, s', step) && !step.Begin? && !step.Delete? && !step.Clear?
    ensures step.call in s.calls && step.call in s'.calls
    ensures Follows(s.calls[step.call], s'.calls[step.call], step)
  {
  }

  predicate Follows(c: Call, c': Call, step: Step) {
    && c'.now == c.now && c'.later == (if step.Time? then step.at else c.later)
    && (c'.thread == c.thread || (step.Create? && c.thread == None))
    && (HasAsked(c') <==> HasAsked(c) || step.Ask?)
    && (HasAnswered(c') <==> HasAnswered(c) || step.Answer?)
    && (HasTimed(c') ==> HasTimed(c) || step.Time?)
    && (step.Ask? ==> c.stage == Ready) && (step.Answer? ==> c.stage == Timed)
    && (step.Create? ==> !HasAsked(c)) && (step.Time? ==> !HasAnswered(c))
    && (c'.stage == Timed ==> c.stage == Timed || step.Time?)
  }

  // ---------------------------------------------------------------------------------------------
  // What is listed: the order by time.

  /** The clock moves forward from each reading to the next. */
  ghost predicate Clocked(run: seq<State>, steps: seq<Step>)
    requires |run| == |steps| + 1
  {
    forall i :: 0 <= i < |steps| && Reads(steps[i]) ==> run[i].clock < steps[i].at
  }

  /** The turn names the thread and is not at its end. */
  predicate Busy(c: Call, id: nat) {
    c.thread == Some(id) && !c.stage.Answering? && !c.stage.Quit? && !c.stage.Dropped? && !c.stage.Done?
  }

  /** No two turns on this thread are between their first clock reading and their end. */
  ghost predicate OneBusy(s: State, id: nat) {
    forall a, b :: a in s.calls && b in s.calls && Busy(s.calls[a], id) && Busy(s.calls[b], id) ==> a == b
  }

  /** The turn has read the clock for its next message. */
  predicate Holding(c: Call, id: nat) {
    c.thread == Some(id) && (c.stage.Began? || c.stage.Uncapped? || c.stage.Ready? || c.stage.Timed?)
  }

  /** The time of the message that the turn would insert next. */
  function NextTime(c: Call): int {
    if c.stage.Timed? then c.later else c.now
  }

  ghost predicate ReadingsBehind(s: State) {
    forall k :: k in s.calls ==> s.calls[k].now <= s.clock && s.calls[k].later <= s.clock
  }

  ghost predicate InOrder(s: State, id: nat) {
    && ReadingsBehind(s)
    && (id in s.threads ==>
          && InTime(s.threads[id].messages, s.clock + 1)
          && forall k :: k in s.calls && Holding(s.calls[k], id) ==>
               InTime(s.threads[id].messages, NextTime(s.calls[k])))
  }

  lemma InTimeSnoc(messages: seq<Message>, m: Message, clock: int)
    requires InTime(messages, m.at) && m.at < clock
    ensures InTime(messages + [m], clock)
  {
  }

  /** Each turn at work on the thread either was so, with the same reading, or has just read the clock. */
  ghost predicate HoldsOn(s: State, s': State, step: Step, id: nat) {
    && s.clock <= s'.clock && ReadingsBehind(s')
    && forall k :: k in s'.calls && Holding(s'.calls[k], id) ==>
         || (k in s.calls && Holding(s.calls[k], id) && NextTime(s'.calls[k]) == NextTime(s.calls[k]))
         || NextTime(s'.calls[k]) > s.clock
  }

  lemma StepKeepsBehind(s: State, s': State, step: Step)
    requires Next(s, s', step) && ReadingsBehind(s)
    requires Reads(step) ==> s.clock < step.at
    ensures s.clock <= s'.clock && ReadingsBehind(s')
  {
    OneCallMoves(s, s', step);
  }

  lemma StepHoldsOn(s: State, s': State, step: Step, id: nat)
    requires Next(s, s', step) && CallsSafe(s) && InOrder(s, id) && id in s.threads
    requires Reads(step) ==> s.clock < step.at
    ensures HoldsOn(s, s', step, id)
  {
    StepKeepsBehind(s, s', step);
    OneCallMoves(s, s', step);
  }

  lemma QuietOrder(s: State, s': State, step: Step, id: nat)
    requires HoldsOn(s, s', step, id) && InOrder(s, id)
    requires id in s.threads && id in s'.threads && s'.threads[id].messages == s.threads[id].messages
    ensures InOrder(s', id)
  {
  }

  lemma WritesInOrder(s: State, s': State, step: Step, id: nat)
    requires WritesNext(s, s', step, id) && OneBusy(s, id) && InOrder(s, id)
    ensures InOrder(s', id)
  {
    assert Busy(s.calls[step.call], id) && Holding(s.calls[step.call], id);
    InTimeSnoc(s.threads[id].messages, MessageOf(s, step), s.clock + 1);
    assert forall k :: k in s'.calls && Holding(s'.calls[k], id) ==> k != step.call && Busy(s.calls[k], id);
  }

  lemma StepKeepsOrder(s: State, s': State, step: Step, id: nat)
    requires Next(s, s', step) && CallsSafe(s) && OneBusy(s, id) && InOrder(s, id)
    requires Reads(step) ==> s.clock < step.at
    ensures InOrder(s', id)
  {
    if Writes(s, step, id) {
      WritingStep(s, s', step, id);
      WritesInOrder(s, s', step, id);
    } else if id in s.threads && id in s'.threads {
      QuietStep(s, s', step, id);
      StepHoldsOn(s, s', step, id);
      QuietOrder(s, s', step, id);
    } else {
      StepKeepsBehind(s, s', step);
      if id in s'.threads {
        FirstStep(s, s', step, id);
      }
    }
  }

  lemma {:induction false} ThreadInOrder(run: seq<State>, steps: seq<Step>, n: nat, id: nat)
    requires Behaviour(run, steps) && Clocked(run, steps) && n < |run|
    requires forall i :: 0 <= i < n ==> OneBusy(run[i], id)
    ensures InOrder(run[n], id)
  {
    if n == 0 {
    } else {
      ThreadInOrder(run, steps, n - 1, id);
      EveryStateIsSafe(run, steps, n - 1);
      assert Next(run[n - 1], run[n - 1 + 1], steps[n - 1]);
      StepKeepsOrder(run[n - 1], run[n], steps[n - 1], id);
    }
  }

  /**
   With a clock that moves forward, and as long as no two turns on a thread overlap from their first clock
   reading to their end, its messages are listed as they were written, and alternate.
   */
  lemma ListedInTurn(run: seq<State>, steps: seq<Step>, n: nat, id: nat, listed: seq<Message>)
    requires Behaviour(run, steps) && Clocked(run, steps) && n < |run| && id in run[n].threads
    requires forall i :: 0 <= i < n ==> OneBusy(run[i], id)
    requires Listing(listed, run[n].threads[id].messages)
    ensures listed == run[n].threads[id].messages && Alternating(listed)
  {
    ThreadInOrder(run, steps, n, id);
    ListedAsWritten(listed, run[n].threads[id].messages, run[n].clock + 1);
    forall i | 0 <= i < n
      ensures OneAsks(run[i], id)
    {
      assert forall k :: k in run[i].calls && Asking(run[i].calls[k], id) ==> Busy(run[i].calls[k], id);
    }
    ThreadAlternates(run, steps, n, id);
  }

  // ---------------------------------------------------------------------------------------------
  // Exactly when what is listed alternates.

  /** No reading of the clock is made twice, and the second of a turn is the later one. */
  ghost predicate ReadingsApart(s: State) {
    && (forall k :: k in s.calls ==> s.calls[k].now <= s.clock)
    && (forall k :: k in s.calls && HasTimed(s.calls[k]) ==> s.calls[k].now < s.calls[k].later <= s.clock)
    && (forall a, b :: a in s.calls && b in s.calls && a != b ==> ApartFrom(s.calls[a], s.calls[b]))
  }

  predicate ApartFrom(a: Call, b: Call) {
    && a.now != b.now
    && (HasTimed(b) ==> a.now != b.later)
    && (HasTimed(a) && HasTimed(b) ==> a.later != b.later)
  }

  lemma StepKeepsReadings(s: State, s': State, step: Step)
    requires Next(s, s', step) && ReadingsApart(s)
    requires Reads(step) ==> s.clock < step.at
    ensures ReadingsApart(s')
  {
    OneCallMoves(s, s', step);
    KeepsReadings(s, s', step);
  }

  lemma KeepsReadings(s: State, s': State, step: Step)
    requires ReadingsApart(s) && OneMoves(s, s', step)
    requires Reads(step) ==> s.clock < step.at
    ensures ReadingsApart(s')
  {
    KeepsBounds(s, s', step);
    forall a, b | a in s'.calls && b in s'.calls && a != b
      ensures ApartFrom(s'.calls[a], s'.calls[b])
    {
      if !OtherCall(step, a) {
        ReadingKept(s, s', step, a, b);
      } else if !OtherCall(step, b) {
        ReadingKept(s, s', step, b, a);
      } else {
        assert ApartFrom(s.calls[a], s.calls[b]);
      }
    }
  }

  lemma KeepsBounds(s: State, s': State, step: Step)
    requires ReadingsApart(s) && OneMoves(s, s', step)
    requires Reads(step) ==> s.clock < step.at
    ensures forall k :: k in s'.calls ==> s'.calls[k].now <= s'.clock
    ensures forall k :: k in s'.calls && HasTimed(s'.calls[k]) ==> s'.calls[k].now < s'.calls[k].later <= s'.clock
  {
  }

  lemma ReadingKept(s: State, s': State, step: Step, k: nat, other: nat)
    requires ReadingsApart(s) && k in s'.calls && other in s.calls && other != k
    requires other in s'.calls && s'.calls[other] == s.calls[other]
    requires Reads(step) ==> s.clock < step.at
    requires if k in s.calls then Follows(s.calls[k], s'.calls[k], step) else Fresh(s'.calls[k], step)
    ensures ApartFrom(s'.calls[k], s'.calls[other]) && ApartFrom(s'.calls[other], s'.calls[k])
  {
    if k in s.calls {
      assert ApartFrom(s.calls[k], s.calls[other]) && ApartFrom(s.calls[other], s.calls[k]);
    }
  }

  /** The clock readings under which the turns have asked on the thread. */
  function AskedTimes(calls: map<nat, Call>, id: nat): set<int> {
    set k | k in calls && calls[k].thread == Some(id) && HasAsked(calls[k]) :: calls[k].now
  }

  function AnsweredTimes(calls: map<nat, Call>, id: nat): set<int> {
    set k | k in calls && calls[k].thread == Some(id) && HasAnswered(calls[k]) :: calls[k].later
  }

  function Times(messages: seq<Message>, role: Role): set<int> {
    set m | m in messages && m.role == role :: m.at
  }

  /** The messages are those that the turns on the thread wrote. */
  ghost predicate Records(messages: seq<Message>, calls: map<nat, Call>, id: nat) {
    Times(messages, User) == AskedTimes(calls, id) && Times(messages, Assistant) == AnsweredTimes(calls, id)
  }

  /** Each is there once, and at a time of its own. */
  ghost predicate OwnTimes(messages: seq<Message>) {
    && (forall x, y :: x in messages && y in messages && x.at == y.at ==> x == y)
    && (forall m :: m in messages ==> multiset(messages)[m] == 1)
  }

  /** What the turns of `calls` have written on the thread, those of `calls'` have written, too. */
  ghost predicate WriteMore(calls: map<nat, Call>, calls': map<nat, Call>, id: nat) {
    forall k :: k in calls && calls[k].thread == Some(id) && HasAsked(calls[k]) ==>
      && k in calls' && calls'[k].thread == Some(id) && HasAsked(calls'[k]) && calls[k].now == calls'[k].now
      && (HasAnswered(calls[k]) ==> HasAnswered(calls'[k]) && calls[k].later == calls'[k].later)
  }

  lemma MoreTimes(calls: map<nat, Call>, calls': map<nat, Call>, id: nat)
    requires WriteMore(calls, calls', id)
    ensures AskedTimes(calls, id) <= AskedTimes(calls', id) && AnsweredTimes(calls, id) <= AnsweredTimes(calls', id)
  {
  }

  lemma TimesSnoc(messages: seq<Message>, m: Message, role: Role)
    ensures Times(messages + [m], role) == Times(messages, role) + if m.role == role then {m.at} else {}
  {
    assert forall x :: x in messages + [m] <==> x in messages || x == m;
    assert m in messages + [m];
  }

  lemma OneMoreTime(messages: seq<Message>, m: Message)
    requires OwnTimes(messages) && forall x :: x in messages ==> x.at != m.at
    ensures OwnTimes(messages + [m])
  {
    assert multiset(messages + [m]) == multiset(messages) + multiset{m};
    assert m !in messages;
  }

  lemma AskedWith(calls: map<nat, Call>, id: nat, k: nat, c: Call)
    requires k in calls && calls[k].thread == Some(id) == c.thread && c.now == calls[k].now && HasAsked(c)
    ensures AskedTimes(calls[k := c], id) == AskedTimes(calls, id) + {c.now}
  {
    var calls' := calls[k := c];
    assert calls'[k] == c;
    forall t | t in AskedTimes(calls, id)
      ensures t in AskedTimes(calls', id)
    {
      var j :| j in calls && calls[j].thread == Some(id) && HasAsked(calls[j]) && calls[j].now == t;
      assert calls'[j].now == t;
    }
    assert forall j :: j in calls' && j != k ==> calls'[j] == calls[j];
  }

  lemma AnsweredWith(calls: map<nat, Call>, id: nat, k: nat, c: Call)
    requires k in calls && calls[k].thread == Some(id) == c.thread && !HasAnswered(calls[k])
    ensures AnsweredTimes(calls[k := c], id) == AnsweredTimes(calls, id) + if HasAnswered(c) then {c.later} else {}
  {
    var calls' := calls[k := c];
    assert calls'[k] == c;
    forall t | t in AnsweredTimes(calls, id)
      ensures t in AnsweredTimes(calls', id)
    {
      var j :| j in calls && calls[j].thread == Some(id) && HasAnswered(calls[j]) && calls[j].later == t;
      assert calls'[j].later == t;
    }
    assert forall j :: j in calls' && j != k ==> calls'[j] == calls[j];
  }

  ghost predicate Recorded(s: State, id: nat) {
    id in s.threads ==> Records(s.threads[id].messages, s.calls, id) && OwnTimes(s.threads[id].messages)
  }

  lemma QuietWriters(s: State, s': State, step: Step, id: nat)
    requires OneMoves(s, s', step) && !Writes(s, step, id)
    ensures WriteMore(s.calls, s'.calls, id) && WriteMore(s'.calls, s.calls, id)
  {
  }

  lemma QuietRecords(s: State, s': State, step: Step, id: nat)
    requires Next(s, s', step) && CallsSafe(s) && !Writes(s, step, id) && id in s.threads && id in s'.threads
    requires Recorded(s, id)
    ensures Recorded(s', id)
  {
    QuietStep(s, s', step, id);
    OneCallMoves(s, s', step);
    QuietWriters(s, s', step, id);
    MoreTimes(s.calls, s'.calls, id);
    MoreTimes(s'.calls, s.calls, id);
  }

  lemma WritingRecords(s: State, s': State, step: Step, id: nat)
    requires WritesNext(s, s', step, id) && ReadingsApart(s) && Recorded(s, id)
    ensures Recorded(s', id)
  {
    var k, m, written := step.call, s.threads[id].messages, MessageOf(s, step);
    NewTime(s, step, id);
    OneMoreTime(m, written);
    TimesSnoc(m, written, User);
    TimesSnoc(m, written, Assistant);
    AskedWith(s.calls, id, k, s'.calls[k]);
    AnsweredWith(s.calls, id, k, s'.calls[k]);
    assert step.Answer? ==> s.calls[k].now in AskedTimes(s.calls, id);
  }

  lemma NewTime(s: State, step: Step, id: nat)
    requires Writes(s, step, id) && (step.Answer? ==> |step.insights| > 0) && id in s.threads
    requires s.calls[step.call].stage == if step.Ask? then Ready else Timed
    requires ReadingsApart(s) && Recorded(s, id)
    ensures forall x :: x in s.threads[id].messages ==> x.at != MessageOf(s, step).at
  {
    var k := step.call;
    forall x | x in s.threads[id].messages
      ensures x.at != MessageOf(s, step).at
    {
      assert x.at in Times(s.threads[id].messages, x.role);
      if x.role == User {
        var j :| j in s.calls && s.calls[j].thread == Some(id) && HasAsked(s.calls[j]) && s.calls[j].now == x.at;
        assert j != k ==> ApartFrom(s.calls[j], s.calls[k]);
      } else {
        var j :| j in s.calls && s.calls[j].thread == Some(id) && HasAnswered(s.calls[j]) && s.calls[j].later == x.at;
        assert j != k ==> ApartFrom(s.calls[j], s.calls[k]) && ApartFrom(s.calls[k], s.calls[j]);
      }
    }
  }

  lemma StepKeepsRecorded(s: State, s': State, step: Step, id: nat)
    requires Next(s, s', step) && CallsSafe(s) && ReadingsApart(s) && Recorded(s, id)
    ensures Recorded(s', id)
  {
    if Writes(s, step, id) {
      WritingStep(s, s', step, id);
      WritingRecords(s, s', step, id);
    } else if id in s.threads && id in s'.threads {
      QuietRecords(s, s', step, id);
    } else if id in s'.threads {
      FirstStep(s, s', step, id);
      assert forall k :: k in s'.calls && s'.calls[k].thread == Some(id) ==> !HasAsked(s'.calls[k]);
    }
  }

  lemma {:induction false} EveryStateIsRecorded(run: seq<State>, steps: seq<Step>, n: nat, id: nat)
    requires Behaviour(run, steps) && Clocked(run, steps) && n < |run|
    ensures ReadingsApart(run[n]) && Recorded(run[n], id)
  {
    if n == 0 {
    } else {
      EveryStateIsRecorded(run, steps, n - 1, id);
      EveryStateIsSafe(run, steps, n - 1);
      assert Next(run[n - 1], run[n - 1 + 1], steps[n - 1]);
      StepKeepsReadings(run[n - 1], run[n], steps[n - 1]);
      StepKeepsRecorded(run[n - 1], run[n], steps[n - 1], id);
    }
  }

  /** The clock readings of any two answered turns on the thread do not interleave. */
  ghost predicate TurnsApart(calls: map<nat, Call>, id: nat) {
    forall a, b :: a in calls && b in calls && a != b
                   && calls[a].thread == Some(id) && HasAnswered(calls[a])
                   && calls[b].thread == Some(id) && HasAnswered(calls[b]) ==>
      calls[a].later < calls[b].now || calls[b].later < calls[a].now
  }

  /** Records in the order of their times. */
  ghost predicate Listed(listed: seq<Message>, s: State, id: nat) {
    && ReadingsApart(s) && Records(listed, s.calls, id)
    && forall i, j :: 0 <= i < j < |listed| ==> listed[i].at < listed[j].at
  }

  lemma Twice(messages: seq<Message>, i: nat, j: nat)
    requires i < j < |messages| && messages[i] == messages[j]
    ensures multiset(messages)[messages[i]] >= 2
  {
    assert messages == messages[..j] + messages[j..];
    assert messages[i] in messages[..j] && messages[j] in messages[j..];
  }

  lemma ListingRecords(listed: seq<Message>, stored: seq<Message>, s: State, id: nat)
    requires Listing(listed, stored) && ReadingsApart(s) && Records(stored, s.calls, id) && OwnTimes(stored)
    ensures Listed(listed, s, id)
  {
    assert forall m :: m in listed <==> m in multiset(listed);
    assert forall m :: m in stored <==> m in multiset(stored);
    forall i, j | 0 <= i < j < |listed|
      ensures listed[i].at < listed[j].at
    {
      assert listed[i] in listed && listed[j] in listed;
      if listed[i] == listed[j] {
        Twice(listed, i, j);
      }
    }
  }

  /** Where the turn's question is listed. */
  lemma QuestionAt(listed: seq<Message>, s: State, id: nat, k: nat) returns (i: nat)
    requires Listed(listed, s, id) && k in s.calls && s.calls[k].thread == Some(id) && HasAsked(s.calls[k])
    ensures i < |listed| && listed[i].role == User && listed[i].at == s.calls[k].now
  {
    assert s.calls[k].now in AskedTimes(s.calls, id);
    var m :| m in listed && m.role == User && m.at == s.calls[k].now;
    i :| 0 <= i < |listed| && listed[i] == m;
  }

  lemma WriterOf(listed: seq<Message>, s: State, id: nat, j: nat) returns (k: nat)
    requires Listed(listed, s, id) && j < |listed| && listed[j].role == Assistant
    ensures k in s.calls && s.calls[k].thread == Some(id) && HasAnswered(s.calls[k])
    ensures listed[j].at == s.calls[k].later && s.calls[k].now < s.calls[k].later
  {
    assert listed[j] in listed;
    assert listed[j].at in Times(listed, Assistant);
    k :| k in s.calls && s.calls[k].thread == Some(id) && HasAnswered(s.calls[k]) && s.calls[k].later == listed[j].at;
  }

  /** Whose answer is listed there, and where its question is. */
  lemma AnswerAt(listed: seq<Message>, s: State, id: nat, j: nat) returns (k: nat, i: nat)
    requires Listed(listed, s, id) && j < |listed| && listed[j].role == Assistant
    ensures k in s.calls && s.calls[k].thread == Some(id) && HasAnswered(s.calls[k])
    ensures listed[j].at == s.calls[k].later
    ensures i < j && listed[i].role == User && listed[i].at == s.calls[k].now
  {
    k := WriterOf(listed, s, id, j);
    i := QuestionAt(listed, s, id, k);
    assert listed[i].at < listed[j].at;
  }

  lemma QuestionBefore(listed: seq<Message>, s: State, id: nat, j: nat)
    requires Listed(listed, s, id) && TurnsApart(s.calls, id) && j < |listed| && listed[j].role == Assistant
    ensures j > 0 && listed[j - 1].role == User
  {
    var k, i := AnswerAt(listed, s, id, j);
    if listed[j - 1].role == Assistant {
      var x, h := AnswerAt(listed, s, id, j - 1);
      assert false;
    }
  }

  lemma ApartAlternates(listed: seq<Message>, s: State, id: nat)
    requires Listed(listed, s, id) && TurnsApart(s.calls, id)
    ensures Alternating(listed)
  {
    forall j | 0 <= j < |listed| && listed[j].role == Assistant
      ensures j > 0 && listed[j - 1].role == User
    {
      QuestionBefore(listed, s, id, j);
    }
  }

  lemma {:induction false} SurplusNonNegative(messages: seq<Message>)
    requires Alternating(messages)
    ensures Surplus(messages) >= if EndsWithUser(messages) then 1 else 0
  {
    if messages == [] {
    } else {
      var n := |messages| - 1;
      assert forall j :: 0 <= j < n ==> messages[..n][j] == messages[j];
      SurplusNonNegative(messages[..n]);
    }
  }

  /** With as many answers as questions, every question is answered next. */
  lemma AnsweredNext(messages: seq<Message>, i: nat)
    requires Alternating(messages) && Surplus(messages) == 0 && i < |messages| && messages[i].role == User
    ensures i + 1 < |messages| && messages[i + 1].role == Assistant
  {
    SurplusNonNegative(messages);
    if i + 1 < |messages| && messages[i + 1].role == User {
      var p := messages[..i];
      assert Alternating(p) by {
        assert forall j :: 0 <= j < i ==> p[j] == messages[j];
      }
      SurplusNonNegative(p);
      SurplusSnoc(p, messages[i]);
      SurplusSnoc(messages[..i + 1], messages[i + 1]);
      assert messages[..i + 1] == p + [messages[i]] && messages[..i + 2] == messages[..i + 1] + [messages[i + 1]];
      SurplusFalls(messages, i + 2);
    }
  }

  /** In an alternating listing with every question answered, the answer that comes next is the turn's own. */
  lemma {:induction false} OwnAnswerNext(listed: seq<Message>, s: State, id: nat, k: nat, i: nat)
    requires Listed(listed, s, id) && Alternating(listed) && Surplus(listed) == 0
    requires k in s.calls && s.calls[k].thread == Some(id) && HasAnswered(s.calls[k])
    requires i < |listed| && listed[i].role == User && listed[i].at == s.calls[k].now
    ensures i + 1 < |listed| && listed[i + 1].role == Assistant && listed[i + 1].at == s.calls[k].later
    decreases i
  {
    AnsweredNext(listed, i);
    var x, j := AnswerAt(listed, s, id, i + 1);
    if j < i {
      OwnAnswerNext(listed, s, id, x, j);
      assert false;
    } else {
      assert x != k ==> ApartFrom(s.calls[x], s.calls[k]);
    }
  }

  lemma AlternatingApart(listed: seq<Message>, s: State, id: nat)
    requires Listed(listed, s, id) && Alternating(listed) && Surplus(listed) == 0
    ensures TurnsApart(s.calls, id)
  {
    forall a, b | a in s.calls && b in s.calls && a != b
                  && s.calls[a].thread == Some(id) && HasAnswered(s.calls[a])
                  && s.calls[b].thread == Some(id) && HasAnswered(s.calls[b])
      ensures s.calls[a].later < s.calls[b].now || s.calls[b].later < s.calls[a].now
    {
      var i := QuestionAt(listed, s, id, a);
      var j := QuestionAt(listed, s, id, b);
      OwnAnswerNext(listed, s, id, a, i);
      OwnAnswerNext(listed, s, id, b, j);
      assert ApartFrom(s.calls[a], s.calls[b]);
      assert i < j ==> i + 1 < j;
      assert j < i ==> j + 1 < i;
    }
  }

  /**
   With a clock that moves forward, what is listed of a thread on which every question was answered alternates
   exactly when the clock readings of no two of its turns interleave.
   */
  lemma ListingAlternatesIffApart(run: seq<State>, steps: seq<Step>, n: nat, id: nat, listed: seq<Message>)
    requires Behaviour(run, steps) && Clocked(run, steps) && n < |run|
    requires id in run[n].threads && Unanswered(run[n], id) == {}
    requires Listing(listed, run[n].threads[id].messages)
    ensures Alternating(listed) <==> TurnsApart(run[n].calls, id)
  {
    EveryStateIsRecorded(run, steps, n, id);
    EveryStateIsCounted(run, steps, n, id);
    ListingRecords(listed, run[n].threads[id].messages, run[n], id);
    SumOfPermutation(listed, run[n].threads[id].messages, Sign());
    if Alternating(listed) {
      AlternatingApart(listed, run[n], id);
    }
    if TurnsApart(run[n].calls, id) {
      ApartAlternates(listed, run[n], id);
    }
  }

  // ---------------------------------------------------------------------------------------------
  // From one state to another.

  ghost predicate Leads(s: State, s': State) {
    exists run, steps :: Path(run, steps) && Clocked(run, steps) && run[0] == s && run[|steps|] == s'
  }

  lemma Stays(s: State)
    ensures Leads(s, s)
  {
    var run, steps: seq<Step> := [s], [];
    assert Path(run, steps) && Clocked(run, steps) && run[0] == s && run[|steps|] == s;
  }

  lemma PathSnoc(run: seq<State>, steps: seq<Step>, s': State, step: Step)
    requires Path(run, steps) && Clocked(run, steps)
    requires Next(run[|steps|], s', step) && (Reads(step) ==> run[|steps|].clock < step.at)
    ensures Path(run + [s'], steps + [step]) && Clocked(run + [s'], steps + [step])
  {
    var run', steps' := run + [s'], steps + [step];
    forall i | 0 <= i < |steps'|
      ensures Next(run'[i], run'[i + 1], steps'[i]) && (Reads(steps'[i]) ==> run'[i].clock < steps'[i].at)
    {
      if i < |steps| {
        assert run'[i] == run[i] && run'[i + 1] == run[i + 1] && steps'[i] == steps[i];
      }
    }
  }

  lemma LeadsOn(s: State, mid: State, s': State, step: Step)
    requires Leads(s, mid) && Next(mid, s', step) && (Reads(step) ==> mid.clock < step.at)
    ensures Leads(s, s')
  {
    var run, steps :| Path(run, steps) && Clocked(run, steps) && run[0] == s && run[|steps|] == mid;
    PathSnoc(run, steps, s', step);
    var run', steps' := run + [s'], steps + [step];
    assert Path(run', steps') && Clocked(run', steps') && run'[0] == s && run'[|steps'|] == s';
  }

  /** The question, inserted and touched. */
  function AfterAsk(s: State, k: nat): State
    requires k in s.calls && HasThread(s, k)
  {
    Moved(s, k, Waiting).(threads := Appended(s.threads, s.calls[k].thread.value, Question(s.calls[k])))
  }

  lemma AskLeads(s0: State, s: State, k: nat)
    requires Leads(s0, s) && In(s, k, Ready) && HasThread(s, k)
    ensures Leads(s0, AfterAsk(s, k))
  {
    var id := s.calls[k].thread.value;
    var asked := Moved(s, k, Asked).(threads := Inserted(s.threads, id, Question(s.calls[k])));
    LeadsOn(s0, s, asked, Ask(k));
    assert asked.calls[k := asked.calls[k].(stage := Waiting)] == s.calls[k := s.calls[k].(stage := Waiting)];
    LeadsOn(s0, asked, AfterAsk(s, k), Touch(k));
  }

  /** The answer, with its clock reading, inserted and touched. */
  function AfterAnswer(s: State, k: nat, i: Gate.Insight, at: int): State
    requires k in s.calls && HasThread(s, k)
  {
    s.(calls := s.calls[k := s.calls[k].(later := at, stage := Done)], clock := at,
       threads := Appended(s.threads, s.calls[k].thread.value, AssistantMessage(s.calls[k].user, i, at)))
  }

  lemma AnswerLeads(s0: State, s: State, k: nat, insights: seq<Gate.Insight>, at: int)
    requires Leads(s0, s) && In(s, k, Waiting) && HasThread(s, k) && Explained(insights) && s.clock < at
    ensures Leads(s0, AfterAnswer(s, k, insights[0], at))
  {
    var c, id := s.calls[k].(later := at, stage := Timed), s.calls[k].thread.value;
    var timed := s.(calls := s.calls[k := c], clock := at);
    LeadsOn(s0, s, timed, Time(k, at));
    var answered := Moved(timed, k, Answering)
                    .(threads := Inserted(s.threads, id, AssistantMessage(c.user, insights[0], at)));
    LeadsOn(s0, timed, answered, Answer(k, insights));
    var done := AfterAnswer(s, k, insights[0], at);
    assert Moved(answered, k, Done).calls == done.calls;
    LeadsOn(s0, answered, done, Touch(k));
  }

  /** A turn run alone is such a path: what Send does, these steps do. */
  lemma TurnIsAPath(s: State, threads': Store, t: Turn, k: nat) returns (s': State)
    requires TurnStep(s.threads, threads', t) && s.clock < t.now < t.later
    requires k !in s.calls && (t.wanted.None? ==> t.id !in s.used)
    ensures Leads(s, s') && s'.threads == threads'
  {
    s' := ResolveLeads(s, t, k);
    if t.id in t.mid {
      var ready := s';
      AskLeads(s, ready, k);
      s' := AfterAsk(ready, k);
      if t.reply.Answered? {
        AnswerLeads(s, s', k, t.outcome.result.insights, t.later);
        s' := AfterAnswer(s', k, t.outcome.result.insights[0], t.later);
      }
    }
  }

  lemma ResolveLeads(s: State, t: Turn, k: nat) returns (s': State)
    requires Resolved(s.threads, t.mid, t.user, t.wanted, Title(t.content), t.now, t.id) && s.clock < t.now
    requires k !in s.calls && (t.wanted.None? ==> t.id !in s.used)
    ensures Leads(s, s') && s'.threads == t.mid && s'.clock == t.now
    ensures k in s'.calls && s'.calls[k] == Call(t.user, Some(t.id), t.content, t.now, t.now, Ready)
  {
    var c := Call(t.user, t.wanted, t.content, t.now, t.now, Began);
    var began := s.(calls := s.calls[k := c], clock := t.now);
    Stays(s);
    LeadsOn(s, s, began, Begin(k, t.user, t.wanted, t.content, t.now));
    if t.wanted.Some? {
      s' := Moved(began, k, Ready);
      LeadsOn(s, began, s', Resolve(k));
    } else {
      s' := CreateLeads(s, began, t, k);
    }
  }

  lemma CreateLeads(s: State, began: State, t: Turn, k: nat) returns (s': State)
    requires Leads(s, began) && began.clock == t.now && t.id !in began.used
    requires k in began.calls && began.calls[k] == Call(t.user, None, t.content, t.now, t.now, Began)
    requires Capped(began.threads[t.id := Thread(t.user, Title(t.content), t.now, [])], t.mid, t.user, MAX_THREADS)
    ensures Leads(s, s') && s'.threads == t.mid && s'.clock == t.now
    ensures k in s'.calls && s'.calls[k] == Call(t.user, Some(t.id), t.content, t.now, t.now, Ready)
  {
    var created := WithThread(began, k, t.id);
    LeadsOn(s, began, created, Create(k, t.id));
    s' := CapLeads(s, created, t.mid, k);
  }

  lemma CapLeads(s: State, created: State, mid: Store, k: nat) returns (s': State)
    requires Leads(s, created) && In(created, k, Uncapped)
    requires Capped(created.threads, mid, created.calls[k].user, MAX_THREADS)
    ensures Leads(s, s') && s'.threads == mid && s'.clock == created.clock
    ensures k in s'.calls && s'.calls[k] == created.calls[k].(stage := Ready)
  {
    s' := Moved(created, k, Ready).(threads := mid, created := created.created[created.calls[k].user := 0]);
    LeadsOn(s, created, s', Cap(k));
  }

  // ---------------------------------------------------------------------------------------------
  // Turns that overlap.

  /** One thread of "u" with these messages, and two turns of "u" on it. */
  function Pair(messages: seq<Message>, touched: int, a: Call, b: Call, clock: int): State {
    State(map[0 := Thread("u", "q", touched, messages)], {0}, map[0 := a, 1 := b], map["u" := 0], clock)
  }

  function OnThread(now: int, later: int, stage: Stage): Call {
    Call("u", Some(0), "q", now, later, stage)
  }

  function Asks(at: int): Message {
    UserMessage("u", "q", at)
  }

  function Answers(at: int): Message {
    AssistantMessage("u", Gate.Insight("", "", "", "x"), at)
  }

  lemma Said() returns (insights: seq<Gate.Insight>)
    ensures insights == [Gate.Insight("", "", "", "x")] && Explained(insights)
  {
    insights := [Gate.Insight("", "", "", "x")];
    TrimNothing("x", IsGoSpace);
  }

  function Opened(messages: seq<Message>, stage: Stage, created: nat): State {
    State(map[0 := Thread("u", "q", 1, messages)], {0}, map[0 := OnThread(1, 1, stage)], map["u" := created], 1)
  }

  lemma Created()
    ensures Leads(START, Opened([], Uncapped, 1))
  {
    var began := START.(calls := map[0 := Call("u", None, "q", 1, 1, Began)], clock := 1);
    assert Title("q") == "q" by {
      TrimNothing("q", IsGoSpace);
    }
    Stays(START);
    LeadsOn(START, START, began, Begin(0, "u", None, "q", 1));
    LeadsOn(START, began, Opened([], Uncapped, 1), Create(0, 0));
  }

  lemma NothingToCap(threads: Store, user: string, id: nat)
    requires threads.Keys == {id}
    ensures Capped(threads, threads, user, MAX_THREADS)
  {
    SubsetSize(Own(threads, user), {id});
  }

  /** The first turn creates the thread and enforces the cap. */
  lemma Opening() returns (s: State)
    ensures Leads(START, s) && s == Opened([], Ready, 0)
  {
    s := Opened([], Ready, 0);
    Created();
    NothingToCap(s.threads, "u", 0);
    LeadsOn(START, Opened([], Uncapped, 1), s, Cap(0));
  }

  lemma PairAsks(messages: seq<Message>, touched: int, a: Call, b: Call, clock: int, k: nat)
    requires k <= 1 && var c := if k == 0 then a else b; c == OnThread(c.now, c.later, Ready)
    requires Leads(START, Pair(messages, touched, a, b, clock))
    ensures var at := if k == 0 then a.now else b.now;
            var (a', b') := if k == 0 then (a.(stage := Waiting), b) else (a, b.(stage := Waiting));
            Leads(START, Pair(messages + [Asks(at)], at, a', b', clock))
  {
    var s := Pair(messages, touched, a, b, clock);
    var at := if k == 0 then a.now else b.now;
    var (a', b') := if k == 0 then (a.(stage := Waiting), b) else (a, b.(stage := Waiting));
    AskLeads(START, s, k);
    assert AfterAsk(s, k) == Pair(messages + [Asks(at)], at, a', b', clock);
  }

  lemma PairAnswers(messages: seq<Message>, touched: int, a: Call, b: Call, clock: int, k: nat, at: int)
    requires clock < at && k <= 1 && var c := if k == 0 then a else b; c == OnThread(c.now, c.later, Waiting)
    requires Leads(START, Pair(messages, touched, a, b, clock))
    ensures var (a', b') := if k == 0 then (OnThread(a.now, at, Done), b) else (a, OnThread(b.now, at, Done));
            Leads(START, Pair(messages + [Answers(at)], at, a', b', at))
  {
    var s := Pair(messages, touched, a, b, clock);
    var (a', b') := if k == 0 then (OnThread(a.now, at, Done), b) else (a, OnThread(b.now, at, Done));
    var insights := Said();
    AnswerLeads(START, s, k, insights, at);
    assert AfterAnswer(s, k, insights[0], at) == Pair(messages + [Answers(at)], at, a', b', at);
  }

  lemma PairResolves(messages: seq<Message>, touched: int, a: Call, at: int, clock: int)
    requires Leads(START, Pair(messages, touched, a, OnThread(at, at, Began), clock))
    ensures Leads(START, Pair(messages, touched, a, OnThread(at, at, Ready), clock))
  {
    LeadsOn(START, Pair(messages, touched, a, OnThread(at, at, Began), clock),
            Pair(messages, touched, a, OnThread(at, at, Ready), clock), Resolve(1));
  }

  lemma SecondTurn(messages: seq<Message>, stage: Stage)
    requires Leads(START, Opened(messages, stage, 0))
    ensures Leads(START, Pair(messages, 1, OnThread(1, 1, stage), OnThread(2, 2, Began), 2))
  {
    LeadsOn(START, Opened(messages, stage, 0), Pair(messages, 1, OnThread(1, 1, stage), OnThread(2, 2, Began), 2),
            Begin(1, "u", Some(0), "q", 2));
  }

  lemma BothAsk()
    ensures Leads(START, Pair([Asks(1), Asks(2)], 2, OnThread(1, 1, Waiting), OnThread(2, 2, Waiting), 2))
  {
    var s := Opening();
    SecondTurn([], Ready);
    PairResolves([], 1, OnThread(1, 1, Ready), 2, 2);
    PairAsks([], 1, OnThread(1, 1, Ready), OnThread(2, 2, Ready), 2, 0);
    assert [] + [Asks(1)] == [Asks(1)];
    PairAsks([Asks(1)], 1, OnThread(1, 1, Waiting), OnThread(2, 2, Ready), 2, 1);
    assert [Asks(1)] + [Asks(2)] == [Asks(1), Asks(2)];
  }

  /** Two turns on one thread that both ask before either is answered leave two assistant messages in a row. */
  lemma OverlappingTurnsCollide() returns (run: seq<State>, steps: seq<Step>)
    ensures Behaviour(run, steps) && Clocked(run, steps)
    ensures 0 in run[|steps|].threads && Unanswered(run[|steps|], 0) == {}
    ensures run[|steps|].threads[0].messages == [Asks(1), Asks(2), Answers(3), Answers(4)]
  {
    BothAsk();
    PairAnswers([Asks(1), Asks(2)], 2, OnThread(1, 1, Waiting), OnThread(2, 2, Waiting), 2, 0, 3);
    assert [Asks(1), Asks(2)] + [Answers(3)] == [Asks(1), Asks(2), Answers(3)];
    PairAnswers([Asks(1), Asks(2), Answers(3)], 3, OnThread(1, 3, Done), OnThread(2, 2, Waiting), 3, 1, 4);
    assert [Asks(1), Asks(2), Answers(3)] + [Answers(4)] == [Asks(1), Asks(2), Answers(3), Answers(4)];
    var end := Pair([Asks(1), Asks(2), Answers(3), Answers(4)], 4, OnThread(1, 3, Done), OnThread(2, 4, Done), 4);
    run, steps :| Path(run, steps) && Clocked(run, steps) && run[0] == START && run[|steps|] == end;
  }

  /** Two turns, the second of which reads the clock before the first one's answer and asks after it. */
  lemma EarlyReading() returns (run: seq<State>, steps: seq<Step>)
    ensures Behaviour(run, steps) && Clocked(run, steps)
    ensures 0 in run[|steps|].threads && Unanswered(run[|steps|], 0) == {}
    ensures run[|steps|].threads[0].messages == [Asks(1), Answers(3), Asks(2), Answers(4)]
  {
    FirstAnswered();
    PairResolves([Asks(1), Answers(3)], 3, OnThread(1, 3, Done), 2, 3);
    PairAsks([Asks(1), Answers(3)], 3, OnThread(1, 3, Done), OnThread(2, 2, Ready), 3, 1);
    assert [Asks(1), Answers(3)] + [Asks(2)] == [Asks(1), Answers(3), Asks(2)];
    PairAnswers([Asks(1), Answers(3), Asks(2)], 2, OnThread(1, 3, Done), OnThread(2, 2, Waiting), 3, 1, 4);
    assert [Asks(1), Answers(3), Asks(2)] + [Answers(4)] == [Asks(1), Answers(3), Asks(2), Answers(4)];
    var end := Pair([Asks(1), Answers(3), Asks(2), Answers(4)], 4, OnThread(1, 3, Done), OnThread(2, 4, Done), 4);
    run, steps :| Path(run, steps) && Clocked(run, steps) && run[0] == START && run[|steps|] == end;
  }

  lemma FirstAnswered()
    ensures Leads(START, Pair([Asks(1), Answers(3)], 3, OnThread(1, 3, Done), OnThread(2, 2, Began), 3))
  {
    var s := Opening();
    AskLeads(START, s, 0);
    assert AfterAsk(s, 0) == Opened([Asks(1)], Waiting, 0) by {
      assert [] + [Asks(1)] == [Asks(1)];
    }
    SecondTurn([Asks(1)], Waiting);
    PairAnswers([Asks(1)], 1, OnThread(1, 1, Waiting), OnThread(2, 2, Began), 2, 0, 3);
    assert [Asks(1)] + [Answers(3)] == [Asks(1), Answers(3)];
  }

  /** A question and an answer that were written in the other order than their times. */
  lemma SwappedListing(listed: seq<Message>, a: Message, b: Message, c: Message, d: Message)
    requires Listing(listed, [a, b, c, d]) && a.at < c.at < b.at < d.at
    requires b.role == Assistant && d.role == Assistant
    ensures !Alternating(listed)
  {
    FourInTime(a, c, b, d);
    SwappedMultiset(a, b, c, d);
    ListedAsWritten(listed, [a, c, b, d], d.at + 1);
    assert listed[3] == d && listed[2] == b;
  }

  lemma FourInTime(a: Message, b: Message, c: Message, d: Message)
    requires a.at < b.at < c.at < d.at
    ensures InTime([a, b, c, d], d.at + 1)
  {
  }

  lemma SwappedMultiset(a: Message, b: Message, c: Message, d: Message)
    ensures multiset([a, c, b, d]) == multiset([a, b, c, d])
  {
  }

  /**
   The listing needs more: a turn that reads the clock before the answer of another one and asks after it never
   overlaps with it in the store, and yet every listing shows two assistant messages in a row.
   */
  lemma EarlyReadingCollides() returns (run: seq<State>, steps: seq<Step>)
    ensures Behaviour(run, steps) && Clocked(run, steps) && 0 in run[|steps|].threads
    ensures forall i :: 0 <= i <= |steps| ==> OneAsks(run[i], 0)
    ensures forall listed :: Listing(listed, run[|steps|].threads[0].messages) ==> !Alternating(listed)
  {
    run, steps := EarlyReading();
    var m := run[|steps|].threads[0].messages;
    assert Alternating(m) by {
      FourAlternate(m[0], m[1], m[2], m[3]);
      assert m == [m[0], m[1], m[2], m[3]];
    }
    AlternatesIffNoOverlap(run, steps, |steps|, 0);
    forall listed | Listing(listed, m)
      ensures !Alternating(listed)
    {
      SwappedListing(listed, Asks(1), Answers(3), Asks(2), Answers(4));
    }
  }

  lemma FourAlternate(a: Message, b: Message, c: Message, d: Message)
    requires a.role == User && b.role == Assistant && c.role == User && d.role == Assistant
    ensures Alternating([a, b, c, d])
  {
  }
}
