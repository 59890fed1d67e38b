/**
 The queues of state change commands and the worker threads that drain them.

 Every section that a thread runs under stateUpdateMutex is one step; between its steps a worker
 executes a command, and any other steps may happen.  A worker's lookup of its queue when it starts
 is one step too, although the code reads the table there without the mutex.  Queues are objects: a
 worker keeps using the queue it looked up.
 */
module StateUpdateWorkers {

  type Key = string

  /** A command, told apart from all others by its id. */
  datatype Command = Command(id: nat, tm: int)

  /** A thread of processStateUpdates: before its queue lookup, between commands, or executing one. */
  datatype Worker =
    | Starting(key: Key)
    | Polling(key: Key, queue: nat)
    | Executing(key: Key, queue: nat, cmd: Command)

  datatype Event =
    | Enqueued(key: Key, cmd: Command)
    | Began(key: Key, cmd: Command)
    | Finished(key: Key, cmd: Command, popped: Command)

  datatype State = State(
    table: map<Key, nat>, // stateChangeQueueMap
    queues: map<nat, seq<Command>>, // every queue object ever made, top first
    workers: map<nat, Worker>, // the live threads
    nextQueue: nat,
    nextWorker: nat,
    log: seq<Event>)

  const Initial := State(map[], map[], map[], 0, 0, [])

  // ----- The priority queue -----

  /** The top carries the least timestamp; nothing is said about the order of the others. */
  ghost predicate IsQueue(q: seq<Command>) {
    forall i :: 0 <= i < |q| ==> q[0].tm <= q[i].tm
  }

  /** push: the new command becomes the top only if it is strictly earlier than the old one. */
  ghost predicate Pushed(q: seq<Command>, c: Command, q': seq<Command>) {
    && IsQueue(q') && multiset(q') == multiset(q) + multiset{c}
    && (q != [] && q[0].tm <= c.tm ==> q' != [] && q'[0] == q[0])
  }

  ghost predicate Popped(q: seq<Command>, q': seq<Command>) {
    q != [] && IsQueue(q') && multiset(q') == multiset(q) - multiset{q[0]}
  }

  // ----- The steps of the threads -----

  datatype Step = Push(key: Key, cmd: Command) | Start(w: nat) | Poll(w: nat, idle: bool) | Finish(w: nat)

  ghost predicate Next(s: State, step: Step, s': State) {
    match step
    case Push(key, c) =>
      if key in s.table then
        && s.table[key] in s.queues && s.table[key] in s'.queues
        && Pushed(s.queues[s.table[key]], c, s'.queues[s.table[key]])
        && s' == s.(queues := s.queues[s.table[key] := s'.queues[s.table[key]]], log := s.log + [Enqueued(key, c)])
      else
        s' == State(s.table[key := s.nextQueue], s.queues[s.nextQueue := [c]], s.workers[s.nextWorker := Starting(key)],
                    s.nextQueue + 1, s.nextWorker + 1, s.log + [Enqueued(key, c)])
    case Start(w) =>
      && w in s.workers && s.workers[w].Starting?
      && s.workers[w].key in s.table // at() throws otherwise
      && s' == s.(workers := s.workers[w := Polling(s.workers[w].key, s.table[s.workers[w].key])])
    case Poll(w, idle) =>
      && w in s.workers && s.workers[w].Polling? && s.workers[w].queue in s.queues
      && var Polling(key, qid) := s.workers[w];
        if s.queues[qid] == [] then
          if idle then s' == s.(table := s.table - {key}, workers := s.workers - {w}) else s' == s
        else
          var c := s.queues[qid][0];
          s' == s.(workers := s.workers[w := Executing(key, qid, c)], log := s.log + [Began(key, c)])
    case Finish(w) =>
      && w in s.workers && s.workers[w].Executing? && s.workers[w].queue in s.queues
      && s.queues[s.workers[w].queue] != []
      && var Executing(key, qid, c) := s.workers[w];
        && qid in s'.queues && Popped(s.queues[qid], s'.queues[qid])
        && s' == s.(queues := s.queues[qid := s'.queues[qid]], workers := s.workers[w := Polling(key, qid)],
                    log := s.log + [Finished(key, c, s.queues[qid][0])])
  }

  // ----- Tables and workers -----

  predicate UsesQueue(w: Worker, qid: nat) { w.Starting? || w.queue == qid }

  /** Every live worker serves a key of the table, and the queue the table holds for it. */
  ghost predicate WorkersServe(s: State) {
    forall w :: w in s.workers ==>
      w < s.nextWorker && s.workers[w].key in s.table && UsesQueue(s.workers[w], s.table[s.workers[w].key])
  }

  ghost predicate Serves(s: State, w: nat, key: Key) {
    w in s.workers && s.workers[w].key == key
  }

  /** Every key of the table has a live worker. */
  ghost predicate KeysServed(s: State) {
    forall key :: key in s.table ==> exists w :: Serves(s, w, key)
  }

  /** No two workers serve one key. */
  ghost predicate Exclusive(s: State) {
    forall v, w :: v in s.workers && w in s.workers && s.workers[v].key == s.workers[w].key ==> v == w
  }

  ghost predicate QueuesOwned(s: State) {
    && (forall key :: key in s.table ==> s.table[key] in s.queues && IsQueue(s.queues[s.table[key]]))
    && (forall k, l :: k in s.table && l in s.table && s.table[k] == s.table[l] ==> k == l)
    && (forall qid :: qid in s.queues ==> qid < s.nextQueue)
  }

  /** A key is in the table exactly while one worker for it is live, and that worker serves the table's queue. */
  ghost predicate OneWorkerPerKey(s: State) {
    WorkersServe(s) && KeysServed(s) && Exclusive(s) && QueuesOwned(s)
  }

  lemma StillServed(s: State, s': State)
    requires KeysServed(s)
    requires forall w :: w in s.workers && s.workers[w].key in s'.table ==> Serves(s', w, s.workers[w].key)
    requires forall key :: key in s'.table && key !in s.table ==> exists w :: Serves(s', w, key)
    ensures KeysServed(s')
  {
  }

  lemma PushKeepsWorkers(s: State, key: Key, c: Command, s': State)
    requires OneWorkerPerKey(s) && Next(s, Push(key, c), s')
    ensures OneWorkerPerKey(s')
  {
    if key in s.table { OldQueueKeepsWorkers(s, key, c, s'); } else { NewQueueKeepsWorkers(s, key, c, s'); }
  }

  lemma OldQueueKeepsWorkers(s: State, key: Key, c: Command, s': State)
    requires OneWorkerPerKey(s) && Next(s, Push(key, c), s') && key in s.table
    ensures OneWorkerPerKey(s')
  {
    hide KeysServed;
    StillServed(s, s');
  }

  lemma NewQueueKeepsWorkers(s: State, key: Key, c: Command, s': State)
    requires OneWorkerPerKey(s) && Next(s, Push(key, c), s') && key !in s.table
    ensures OneWorkerPerKey(s')
  {
    hide KeysServed, QueuesOwned, IsQueue;
    NewQueueIsOwned(s, key, c, s');
    assert Serves(s', s.nextWorker, key);
    StillServed(s, s');
  }

  lemma NewQueueIsOwned(s: State, key: Key, c: Command, s': State)
    requires OneWorkerPerKey(s) && Next(s, Push(key, c), s') && key !in s.table
    ensures QueuesOwned(s')
  {
    hide KeysServed, WorkersServe, Exclusive;
  }

  lemma PollKeepsWorkers(s: State, w: nat, idle: bool, s': State)
    requires OneWorkerPerKey(s) && Next(s, Poll(w, idle), s')
    ensures OneWorkerPerKey(s')
  {
    hide KeysServed, QueuesOwned, IsQueue;
    PollKeepsQueues(s, w, idle, s');
    StillServed(s, s');
  }

  lemma PollKeepsQueues(s: State, w: nat, idle: bool, s': State)
    requires OneWorkerPerKey(s) && Next(s, Poll(w, idle), s')
    ensures QueuesOwned(s')
  {
    hide KeysServed, WorkersServe, Exclusive, IsQueue;
  }

  lemma StartKeepsWorkers(s: State, w: nat, s': State)
    requires OneWorkerPerKey(s) && Next(s, Start(w), s')
    ensures OneWorkerPerKey(s')
  {
    hide KeysServed;
    StillServed(s, s');
  }

  lemma FinishKeepsWorkers(s: State, w: nat, s': State)
    requires OneWorkerPerKey(s) && Next(s, Finish(w), s')
    ensures OneWorkerPerKey(s')
  {
    hide KeysServed;
    StillServed(s, s');
  }

  lemma OneWorkerIsKept(s: State, step: Step, s': State)
    requires OneWorkerPerKey(s) && Next(s, step, s')
    ensures OneWorkerPerKey(s')
  {
    hide OneWorkerPerKey, Next;
    match step
    case Push(key, c) => PushKeepsWorkers(s, key, c, s');
    case Poll(w, idle) => PollKeepsWorkers(s, w, idle, s');
    case Finish(w) => FinishKeepsWorkers(s, w, s');
    case Start(w) => StartKeepsWorkers(s, w, s');
  }

  /** A worker leaves only with its queue empty, and takes its key out of the table. */
  lemma WorkerLeavesEmptyQueue(s: State, step: Step, s': State, w: nat)
    requires OneWorkerPerKey(s) && Next(s, step, s') && w in s.workers && w !in s'.workers
    ensures s.workers[w].Polling? && s.queues[s.table[s.workers[w].key]] == [] && s.workers[w].key !in s'.table
  {}

  // ----- Every command is accounted for -----

  function EnqueuedIn(log: seq<Event>, key: Key): multiset<Command> {
    if log == [] then multiset{}
    else
      var e, before := log[|log| - 1], EnqueuedIn(log[..|log| - 1], key);
      if e.Enqueued? && e.key == key then before + multiset{e.cmd} else before
  }

  /** The commands whose execution has begun, one occurrence for each execution. */
  function BegunIn(log: seq<Event>, key: Key): multiset<Command> {
    if log == [] then multiset{}
    else
      var e, before := log[|log| - 1], BegunIn(log[..|log| - 1], key);
      if e.Began? && e.key == key then before + multiset{e.cmd} else before
  }

  /** The commands removed from the queue. */
  function PoppedIn(log: seq<Event>, key: Key): multiset<Command> {
    if log == [] then multiset{}
    else
      var e, before := log[|log| - 1], PoppedIn(log[..|log| - 1], key);
      if e.Finished? && e.key == key then before + multiset{e.popped} else before
  }

  function Waiting(s: State, key: Key): multiset<Command> {
    if key in s.table && s.table[key] in s.queues then multiset(s.queues[s.table[key]]) else multiset{}
  }

  /** What was enqueued was popped or is still waiting. */
  ghost predicate NothingLost(s: State) {
    forall key :: EnqueuedIn(s.log, key) == PoppedIn(s.log, key) + Waiting(s, key)
  }

  ghost predicate IsExecuting(s: State, key: Key, c: Command) {
    exists w :: Serves(s, w, key) && s.workers[w].Executing? && s.workers[w].cmd == c
  }

  /** The command of the key that is being executed, if any. */
  ghost function Running(s: State, key: Key): (r: multiset<Command>) {
    if exists c :: IsExecuting(s, key, c) then (var c :| IsExecuting(s, key, c); multiset{c}) else multiset{}
  }

  lemma LogNext(log: seq<Event>, e: Event, key: Key)
    ensures EnqueuedIn(log + [e], key) ==
      if e.Enqueued? && e.key == key then EnqueuedIn(log, key) + multiset{e.cmd} else EnqueuedIn(log, key)
    ensures BegunIn(log + [e], key) ==
      if e.Began? && e.key == key then BegunIn(log, key) + multiset{e.cmd} else BegunIn(log, key)
    ensures PoppedIn(log + [e], key) ==
      if e.Finished? && e.key == key then PoppedIn(log, key) + multiset{e.popped} else PoppedIn(log, key)
  {
  }

  /** Only the queue of the step's own key changes. */
  lemma PushWaiting(s: State, k: Key, c: Command, s': State, key: Key)
    requires OneWorkerPerKey(s) && Next(s, Push(k, c), s')
    ensures Waiting(s', key) == if k == key then Waiting(s, key) + multiset{c} else Waiting(s, key)
  {
  }

  lemma FinishWaiting(s: State, w: nat, s': State, key: Key)
    requires OneWorkerPerKey(s) && Next(s, Finish(w), s')
    ensures var k, top := s.workers[w].key, s.queues[s.workers[w].queue][0];
      && top in Waiting(s, k)
      && Waiting(s', key) == if k == key then Waiting(s, key) - multiset{top} else Waiting(s, key)
  {
  }

  lemma OtherWaiting(s: State, step: Step, s': State, key: Key)
    requires OneWorkerPerKey(s) && Next(s, step, s') && !step.Push? && !step.Finish?
    ensures Waiting(s', key) == Waiting(s, key)
  {
  }

  /** The event a step writes, if it writes one. */
  lemma Logged(s: State, step: Step, s': State)
    requires OneWorkerPerKey(s) && Next(s, step, s')
    ensures match step
      case Push(key, c) => s'.log == s.log + [Enqueued(key, c)]
      case Start(_) => s'.log == s.log
      case Poll(w, _) => s'.log == s.log || exists c :: s'.log == s.log + [Began(s.workers[w].key, c)]
      case Finish(w) =>
        s'.log == s.log + [Finished(s.workers[w].key, s.workers[w].cmd, s.queues[s.workers[w].queue][0])]
  {}

  /** The account of one event: what it adds to the enqueued and to the popped. */
  lemma AccountOf(log: seq<Event>, e: Event, key: Key, before: multiset<Command>, after: multiset<Command>)
    requires EnqueuedIn(log, key) == PoppedIn(log, key) + before
    requires match e
      case Enqueued(k, c) => after == if k == key then before + multiset{c} else before
      case Began(_, _) => after == before
      case Finished(k, _, top) =>
        && (k == key ==> top in before)
        && after == if k == key then before - multiset{top} else before
    ensures EnqueuedIn(log + [e], key) == PoppedIn(log + [e], key) + after
  {
    hide EnqueuedIn, PoppedIn, BegunIn;
    LogNext(log, e, key);
  }

  lemma AccountNext(s: State, step: Step, s': State, key: Key)
    requires OneWorkerPerKey(s) && Next(s, step, s')
    requires EnqueuedIn(s.log, key) == PoppedIn(s.log, key) + Waiting(s, key)
    ensures EnqueuedIn(s'.log, key) == PoppedIn(s'.log, key) + Waiting(s', key)
  {
    Logged(s, step, s');
    hide OneWorkerPerKey, Waiting, EnqueuedIn, PoppedIn, BegunIn, Next;
    match step {
      case Push(k, c) => PushWaiting(s, k, c, s', key);
      case Finish(w) => FinishWaiting(s, w, s', key);
      case Poll(_, _) => OtherWaiting(s, step, s', key);
      case Start(_) => OtherWaiting(s, step, s', key);
    }
    if s'.log != s.log { AccountOf(s.log, s'.log[|s.log|], key, Waiting(s, key), Waiting(s', key)); }
  }

  /** In every interleaving, whatever the timestamps, each enqueued command was popped or still waits. */
  lemma NothingIsLost(s: State, step: Step, s': State)
    requires OneWorkerPerKey(s) && NothingLost(s) && Next(s, step, s')
    ensures NothingLost(s')
  {
    hide OneWorkerPerKey, Waiting, EnqueuedIn, PoppedIn, Next;
    forall key ensures EnqueuedIn(s'.log, key) == PoppedIn(s'.log, key) + Waiting(s', key) {
      assert EnqueuedIn(s.log, key) == PoppedIn(s.log, key) + Waiting(s, key);
      AccountNext(s, step, s', key);
    }
  }

  // ----- Executions -----

  /** A command that is being executed is in its worker's queue, so that there is something to pop. */
  ghost predicate ExecutingWaits(s: State) {
    forall w :: w in s.workers && s.workers[w].Executing? ==>
      s.workers[w].queue in s.queues && s.workers[w].cmd in s.queues[s.workers[w].queue]
  }

  lemma PushedStillWaits(s: State, key: Key, c: Command, s': State)
    requires OneWorkerPerKey(s) && ExecutingWaits(s) && Next(s, Push(key, c), s')
    ensures ExecutingWaits(s')
  {
    hide KeysServed, Exclusive, WorkersServe, IsQueue;
    if key in s.table {
      var qid := s.table[key];
      assert forall c :: c in s.queues[qid] ==> c in multiset(s'.queues[qid]);
    }
  }

  lemma ExecutingStillWaits(s: State, step: Step, s': State)
    requires OneWorkerPerKey(s) && ExecutingWaits(s) && Next(s, step, s')
    ensures ExecutingWaits(s')
  {
    hide KeysServed, IsQueue, Pushed;
    if step.Push? {
      PushedStillWaits(s, step.key, step.cmd, s');
    } else {
      hide Popped;
    }
  }

  lemma RunningIs(s: State, w: nat)
    requires Exclusive(s) && w in s.workers
    ensures Running(s, s.workers[w].key) == if s.workers[w].Executing? then multiset{s.workers[w].cmd} else multiset{}
  {
    if s.workers[w].Executing? {
      assert Serves(s, w, s.workers[w].key) && IsExecuting(s, s.workers[w].key, s.workers[w].cmd);
    }
  }

  lemma RunningGone(s: State, key: Key)
    requires WorkersServe(s) && key !in s.table
    ensures Running(s, key) == multiset{}
  {
    assert forall w :: w in s.workers ==> s.workers[w].key != key;
  }

  lemma RunningSame(s: State, s': State, key: Key)
    requires Exclusive(s)
    requires forall w ::
      (Serves(s, w, key) && s.workers[w].Executing?) || (Serves(s', w, key) && s'.workers[w].Executing?) ==>
      w in s.workers && w in s'.workers && s.workers[w] == s'.workers[w]
    ensures Running(s', key) == Running(s, key)
  {
    forall c ensures IsExecuting(s, key, c) <==> IsExecuting(s', key, c) {}
  }

  lemma RunningNext(s: State, step: Step, s': State, key: Key)
    requires OneWorkerPerKey(s) && OneWorkerPerKey(s') && Next(s, step, s')
    ensures !step.Poll? && !step.Finish? ==> Running(s', key) == Running(s, key)
    ensures (step.Poll? || step.Finish?) && s.workers[step.w].key != key ==> Running(s', key) == Running(s, key)
  {
    hide KeysServed, QueuesOwned, Running, IsExecuting, Exclusive;
    if step.Push? || s.workers[step.w].key != key || step.Start? {
      RunningSame(s, s', key);
    }
  }

  /** Every pop ends an execution, and the command being executed has begun. */
  ghost predicate Begins(s: State, key: Key) {
    |BegunIn(s.log, key)| == |PoppedIn(s.log, key)| + |Running(s, key)| && Running(s, key) <= BegunIn(s.log, key)
  }

  /** What a step does to the executions of a key: nothing, begin one, or end one and pop the top. */
  ghost predicate Counts(s: State, s': State, key: Key, began: multiset<Command>, popped: multiset<Command>) {
    BegunIn(s'.log, key) == BegunIn(s.log, key) + began && PoppedIn(s'.log, key) == PoppedIn(s.log, key) + popped
  }

  lemma PollCounts(s: State, w: nat, idle: bool, s': State)
    requires OneWorkerPerKey(s) && OneWorkerPerKey(s') && Next(s, Poll(w, idle), s')
    ensures var key, q := s.workers[w].key, s.queues[s.workers[w].queue];
      && Running(s, key) == multiset{}
      && Running(s', key) == (if q == [] then multiset{} else multiset{q[0]})
      && Counts(s, s', key, Running(s', key), multiset{})
  {
    hide KeysServed, QueuesOwned, Running, BegunIn, PoppedIn, EnqueuedIn, IsExecuting, Exclusive, WorkersServe;
    var key := s.workers[w].key;
    RunningIs(s, w);
    if w in s'.workers { RunningIs(s', w); } else { RunningGone(s', key); }
    if s'.log != s.log { LogNext(s.log, s'.log[|s.log|], key); }
  }

  lemma FinishCounts(s: State, w: nat, s': State)
    requires OneWorkerPerKey(s) && OneWorkerPerKey(s') && Next(s, Finish(w), s')
    ensures var key := s.workers[w].key;
      && Running(s, key) == multiset{s.workers[w].cmd} && Running(s', key) == multiset{}
      && Counts(s, s', key, multiset{}, multiset{s.queues[s.workers[w].queue][0]})
  {
    hide KeysServed, QueuesOwned, Running, BegunIn, PoppedIn, EnqueuedIn, IsExecuting, Exclusive, WorkersServe;
    RunningIs(s, w);
    RunningIs(s', w);
    LogNext(s.log, s'.log[|s.log|], s.workers[w].key);
  }

  lemma NoCounts(s: State, step: Step, s': State, key: Key)
    requires OneWorkerPerKey(s) && Next(s, step, s')
    requires step.Poll? || step.Finish? ==> s.workers[step.w].key != key
    ensures Counts(s, s', key, multiset{}, multiset{})
  {
    Logged(s, step, s');
    hide OneWorkerPerKey, BegunIn, PoppedIn, EnqueuedIn, Next;
    if s'.log != s.log { LogNext(s.log, s'.log[|s.log|], key); }
  }

  lemma OtherCounts(s: State, step: Step, s': State, key: Key)
    requires OneWorkerPerKey(s) && OneWorkerPerKey(s') && Next(s, step, s')
    requires step.Poll? || step.Finish? ==> s.workers[step.w].key != key
    ensures Running(s', key) == Running(s, key) && Counts(s, s', key, multiset{}, multiset{})
  {
    RunningNext(s, step, s', key);
    NoCounts(s, step, s', key);
  }

  /** A step begins one execution of the key, or ends one and pops a command, or does neither. */
  datatype Effect = NoEffect | OneBegins(cmd: Command) | OneEnds(cmd: Command, popped: Command)

  ghost predicate HasEffect(s: State, s': State, key: Key, effect: Effect) {
    match effect
    case NoEffect => Running(s', key) == Running(s, key) && Counts(s, s', key, multiset{}, multiset{})
    case OneBegins(c) =>
      && Running(s, key) == multiset{} && Running(s', key) == multiset{c}
      && Counts(s, s', key, multiset{c}, multiset{})
    case OneEnds(c, top) =>
      && Running(s, key) == multiset{c} && Running(s', key) == multiset{}
      && Counts(s, s', key, multiset{}, multiset{top})
  }

  lemma PollEffect(s: State, w: nat, idle: bool, s': State) returns (effect: Effect)
    requires OneWorkerPerKey(s) && OneWorkerPerKey(s') && Next(s, Poll(w, idle), s')
    ensures HasEffect(s, s', s.workers[w].key, effect) && !effect.OneEnds?
    ensures effect.OneBegins? ==> effect.cmd in Waiting(s, s.workers[w].key)
  {
    hide OneWorkerPerKey, Counts, Running, Waiting;
    PollCounts(s, w, idle, s');
    TopWaits(s, w);
    var q := s.queues[s.workers[w].queue];
    effect := if q == [] then NoEffect else OneBegins(q[0]);
  }

  lemma FinishEffect(s: State, w: nat, s': State) returns (effect: Effect)
    requires OneWorkerPerKey(s) && OneWorkerPerKey(s') && Next(s, Finish(w), s')
    ensures HasEffect(s, s', s.workers[w].key, effect) && effect.OneEnds?
    ensures TopExecutes(s, s.workers[w].key) ==> effect.popped == effect.cmd
  {
    hide OneWorkerPerKey, Counts, Running;
    FinishCounts(s, w, s');
    assert Serves(s, w, s.workers[w].key);
    effect := OneEnds(s.workers[w].cmd, s.queues[s.workers[w].queue][0]);
  }

  lemma StepEffect(s: State, step: Step, s': State, key: Key) returns (effect: Effect)
    requires OneWorkerPerKey(s) && OneWorkerPerKey(s') && Next(s, step, s')
    ensures HasEffect(s, s', key, effect)
    ensures effect.OneBegins? ==> effect.cmd in Waiting(s, key)
    ensures effect.OneEnds? && TopExecutes(s, key) ==> effect.popped == effect.cmd
  {
    StepsAreEnabled(s, step, s');
    hide OneWorkerPerKey, Next, Counts, Running, Waiting, TopExecutes;
    if (step.Poll? || step.Finish?) && s.workers[step.w].key == key {
      if step.Poll? { effect := PollEffect(s, step.w, step.idle, s'); } else { effect := FinishEffect(s, step.w, s'); }
    } else {
      OtherCounts(s, step, s', key);
      effect := NoEffect;
    }
  }

  lemma StepsAreEnabled(s: State, step: Step, s': State)
    requires Next(s, step, s')
    ensures step.Poll? || step.Finish? ==> step.w in s.workers
  {
  }

  lemma BeginsNext(s: State, step: Step, s': State, key: Key)
    requires OneWorkerPerKey(s) && OneWorkerPerKey(s') && Next(s, step, s') && Begins(s, key)
    ensures Begins(s', key)
  {
    hide OneWorkerPerKey, Next, Running, BegunIn, PoppedIn;
    var effect := StepEffect(s, step, s', key);
  }

  // ----- The order of executions -----

  /** What was waiting when the log was as long as that. */
  function WaitingIn(log: seq<Event>, key: Key): multiset<Command> { EnqueuedIn(log, key) - PoppedIn(log, key) }

  /** Each execution begun was of a waiting command, with the least timestamp among those waiting. */
  ghost predicate EarliestFirst(log: seq<Event>) {
    forall i :: 0 <= i < |log| && log[i].Began? ==>
      && log[i].cmd in WaitingIn(log[..i], log[i].key)
      && forall d :: d in WaitingIn(log[..i], log[i].key) ==> log[i].cmd.tm <= d.tm
  }

  lemma TopBegins(s: State, w: nat, idle: bool, s': State)
    requires OneWorkerPerKey(s) && Next(s, Poll(w, idle), s') && s'.log != s.log
    ensures var e := s'.log[|s.log|];
      && s'.log == s.log + [e] && e.Began? && e.cmd in Waiting(s, e.key)
      && forall d :: d in Waiting(s, e.key) ==> e.cmd.tm <= d.tm
  {
    hide KeysServed, Exclusive;
  }

  lemma EarliestStays(log: seq<Event>, e: Event)
    requires EarliestFirst(log)
    requires e.Began? ==>
      && e.cmd in WaitingIn(log, e.key)
      && forall d :: d in WaitingIn(log, e.key) ==> e.cmd.tm <= d.tm
    ensures EarliestFirst(log + [e])
  {
    hide WaitingIn;
    var n := |log|;
    assert (log + [e])[..n] == log;
    assert forall i :: 0 <= i < n ==> (log + [e])[..i] == log[..i] && (log + [e])[i] == log[i];
  }

  lemma EarliestNext(s: State, step: Step, s': State)
    requires OneWorkerPerKey(s) && NothingLost(s) && EarliestFirst(s.log) && Next(s, step, s')
    ensures EarliestFirst(s'.log)
  {
    Logged(s, step, s');
    hide OneWorkerPerKey, Waiting, EnqueuedIn, PoppedIn, Next, EarliestFirst;
    if s'.log != s.log {
      var e := s'.log[|s.log|];
      if step.Poll? {
        TopBegins(s, step.w, step.idle, s');
        assert EnqueuedIn(s.log, e.key) == PoppedIn(s.log, e.key) + Waiting(s, e.key);
      }
      EarliestStays(s.log, e);
    }
  }

  // ----- Whole runs -----

  ghost predicate Inv(s: State) {
    OneWorkerPerKey(s) && NothingLost(s) && ExecutingWaits(s) && EarliestFirst(s.log) && forall key :: Begins(s, key)
  }

  ghost predicate IsRun(states: seq<State>, steps: seq<Step>) {
    && |states| == |steps| + 1 && states[0] == Initial
    && forall i :: 0 <= i < |steps| ==> Next(states[i], steps[i], states[i + 1])
  }

  lemma InitialInv()
    ensures Inv(Initial)
  {
    forall key ensures Begins(Initial, key) { RunningGone(Initial, key); }
  }

  /**
   In every interleaving: each key of the table has exactly one live worker, no command is lost, what is being
   executed is still queued, and each execution is of the earliest waiting command.
   */
  lemma {:induction false} RunKeepsInv(states: seq<State>, steps: seq<Step>, n: nat)
    requires IsRun(states, steps) && n <= |steps|
    ensures Inv(states[n])
  {
    hide Next, OneWorkerPerKey, NothingLost, ExecutingWaits, EarliestFirst, Begins;
    if n == 0 {
      InitialInv();
    } else {
      var s, step, s' := states[n - 1], steps[n - 1], states[n];
      RunKeepsInv(states, steps, n - 1);
      OneWorkerIsKept(s, step, s');
      NothingIsLost(s, step, s');
      ExecutingStillWaits(s, step, s');
      EarliestNext(s, step, s');
      forall key ensures Begins(s', key) { BeginsNext(s, step, s', key); }
    }
  }

  /** A worker that is executing can always pop: its queue is not empty. */
  lemma PopIsPossible(states: seq<State>, steps: seq<Step>, n: nat, w: nat)
    requires IsRun(states, steps) && n <= |steps| && w in states[n].workers && states[n].workers[w].Executing?
    ensures states[n].workers[w].queue in states[n].queues && states[n].queues[states[n].workers[w].queue] != []
  {
    RunKeepsInv(states, steps, n);
  }

  // ----- When executions follow the timestamps -----

  predicate Begun(log: seq<Event>, i: nat, key: Key) { i < |log| && log[i].Began? && log[i].key == key }

  /** Of two executions of a key the later one has no smaller timestamp. */
  ghost predicate InOrder(log: seq<Event>, key: Key) {
    forall i, j :: 0 <= i < j && Begun(log, i, key) && Begun(log, j, key) ==> log[i].cmd.tm <= log[j].cmd.tm
  }

  /** Command c was pushed between events i and j. */
  ghost predicate PushedBetween(log: seq<Event>, i: nat, j: nat, key: Key, c: Command)
    requires j <= |log|
  {
    exists m :: i < m < j && log[m] == Enqueued(key, c)
  }

  lemma {:induction false} CountsGrow(log: seq<Event>, i: nat, key: Key, c: Command)
    requires i < |log| && log[i].Began?
    ensures PoppedIn(log[..i], key)[c] <= PoppedIn(log, key)[c]
    ensures !PushedBetween(log, i, |log|, key, c) ==> EnqueuedIn(log[..i], key)[c] == EnqueuedIn(log, key)[c]
  {
    var before, e := log[..|log| - 1], log[|log| - 1];
    assert log == before + [e];
    LogNext(before, e, key);
    hide EnqueuedIn, PoppedIn, BegunIn;
    if i < |before| {
      assert before[..i] == log[..i];
      CountsGrow(before, i, key, c);
      PushedGrows(before, e, i, key, c);
    } else {
      assert before == log[..i];
    }
  }

  lemma PushedGrows(log: seq<Event>, e: Event, i: nat, key: Key, c: Command)
    requires i < |log|
    ensures PushedBetween(log, i, |log|, key, c) || e == Enqueued(key, c) ==>
      PushedBetween(log + [e], i, |log| + 1, key, c)
  {
    if PushedBetween(log, i, |log|, key, c) {
      var m :| i < m < |log| && log[m] == Enqueued(key, c);
      assert (log + [e])[m] == Enqueued(key, c);
    } else {
      assert (log + [e])[|log|] == e;
    }
  }

  lemma PushedBefore(log: seq<Event>, i: nat, j: nat, key: Key, c: Command)
    requires j <= |log| && PushedBetween(log[..j], i, j, key, c)
    ensures PushedBetween(log, i, j, key, c)
  {
    var m :| i < m < j && log[..j][m] == Enqueued(key, c);
    assert log[m] == Enqueued(key, c);
  }

  lemma StillWaiting(log: seq<Event>, i: nat, j: nat, key: Key, c: Command)
    requires i < j <= |log| && log[i].Began? && c in WaitingIn(log[..j], key) && !PushedBetween(log, i, j, key, c)
    ensures c in WaitingIn(log[..i], key)
  {
    assert log[..j][..i] == log[..i];
    CountsGrow(log[..j], i, key, c);
    hide EnqueuedIn, PoppedIn, PushedBetween;
    if PushedBetween(log[..j], i, j, key, c) {
      PushedBefore(log, i, j, key, c);
    }
  }

  /** An execution out of timestamp order is of a command that came after the one executed before it had begun. */
  lemma OutOfOrderIsLate(log: seq<Event>, i: nat, j: nat, key: Key)
    requires EarliestFirst(log) && i < j && Begun(log, i, key) && Begun(log, j, key)
    requires log[j].cmd.tm < log[i].cmd.tm
    ensures PushedBetween(log, i, j, key, log[j].cmd)
  {
    hide PushedBetween, WaitingIn;
    if !PushedBetween(log, i, j, key, log[j].cmd) {
      StillWaiting(log, i, j, key, log[j].cmd);
    }
  }

  /** The j-th event executes a command pushed after the i-th event had begun one with a greater timestamp. */
  ghost predicate IsLate(log: seq<Event>, i: nat, j: nat, key: Key) {
    && i < j && Begun(log, i, key) && Begun(log, j, key) && log[j].cmd.tm < log[i].cmd.tm
    && PushedBetween(log, i, j, key, log[j].cmd)
  }

  /**
   In every interleaving, the executions of a key follow the timestamps exactly if no command that gets executed is
   pushed after the beginning of an execution with a greater timestamp.
   */
  lemma InOrderIff(states: seq<State>, steps: seq<Step>, key: Key)
    requires IsRun(states, steps)
    ensures var log := states[|steps|].log;
      InOrder(log, key) <==> forall i, j :: !IsLate(log, i, j, key)
  {
    var log := states[|steps|].log;
    RunKeepsInv(states, steps, |steps|);
    hide Inv, IsRun, PushedBetween, EarliestFirst;
    assert EarliestFirst(log) by { EarliestOf(states[|steps|]); }
    forall i, j | 0 <= i < j && Begun(log, i, key) && Begun(log, j, key) && log[j].cmd.tm < log[i].cmd.tm
      ensures IsLate(log, i, j, key)
    {
      OutOfOrderIsLate(log, i, j, key);
    }
  }

  lemma EarliestOf(s: State)
    requires Inv(s)
    ensures EarliestFirst(s.log)
  {
  }

  // ----- When every command is executed once -----

  /** A command pushed while another one of its key is executing is not earlier than that one. */
  ghost predicate Timely(s: State, step: Step, key: Key) {
    step.Push? && step.key == key ==> forall c :: IsExecuting(s, key, c) ==> c.tm <= step.cmd.tm
  }

  ghost predicate IsTimely(states: seq<State>, steps: seq<Step>, key: Key, n: nat)
    requires n <= |steps| < |states|
  {
    forall i :: 0 <= i < n ==> Timely(states[i], steps[i], key)
  }

  /** The command being executed for the key is still the top of its queue. */
  ghost predicate TopExecutes(s: State, key: Key) {
    forall w :: Serves(s, w, key) && s.workers[w].Executing? ==>
      && s.workers[w].queue in s.queues && s.queues[s.workers[w].queue] != []
      && s.queues[s.workers[w].queue][0] == s.workers[w].cmd
  }

  lemma PushKeepsTop(s: State, c: Command, s': State, key: Key)
    requires OneWorkerPerKey(s) && TopExecutes(s, key) && Next(s, Push(key, c), s') && Timely(s, Push(key, c), key)
    ensures TopExecutes(s', key)
  {
    hide KeysServed, QueuesOwned, IsQueue, Exclusive;
    forall w | Serves(s', w, key) && s'.workers[w].Executing?
      ensures s'.workers[w].queue in s'.queues && s'.queues[s'.workers[w].queue] != []
      ensures s'.queues[s'.workers[w].queue][0] == s'.workers[w].cmd
    {
      assert Serves(s, w, key);
      assert IsExecuting(s, key, s.workers[w].cmd);
    }
  }

  lemma PollKeepsTop(s: State, w: nat, idle: bool, s': State, key: Key)
    requires OneWorkerPerKey(s) && TopExecutes(s, key) && Next(s, Poll(w, idle), s')
    ensures TopExecutes(s', key)
  {
    hide OneWorkerPerKey;
    assert forall v :: Serves(s', v, key) && v != w ==> Serves(s, v, key);
  }

  lemma FinishKeepsTop(s: State, w: nat, s': State, key: Key)
    requires OneWorkerPerKey(s) && TopExecutes(s, key) && Next(s, Finish(w), s')
    ensures TopExecutes(s', key)
  {
    hide KeysServed, IsQueue, Popped;
    assert forall v :: Serves(s', v, key) && v in s.workers ==> Serves(s, v, key);
  }

  lemma OthersKeepTop(s: State, step: Step, s': State, key: Key)
    requires OneWorkerPerKey(s) && TopExecutes(s, key) && Next(s, step, s')
    requires step.Start? || (step.Push? && step.key != key)
    ensures TopExecutes(s', key)
  {
    hide KeysServed, Exclusive, IsQueue, Pushed;
    assert forall v :: Serves(s', v, key) && v in s.workers ==> Serves(s, v, key);
  }

  /** As long as that is so, what was begun was popped or is being executed. */
  ghost predicate PopsItsOwn(s: State, key: Key) {
    TopExecutes(s, key) && BegunIn(s.log, key) == PoppedIn(s.log, key) + Running(s, key)
  }

  lemma BegunArePopped(s: State, step: Step, s': State, key: Key)
    requires OneWorkerPerKey(s) && OneWorkerPerKey(s') && PopsItsOwn(s, key) && Next(s, step, s')
    ensures BegunIn(s'.log, key) == PoppedIn(s'.log, key) + Running(s', key)
  {
    hide OneWorkerPerKey, Next, Running, BegunIn, PoppedIn, TopExecutes;
    var effect := StepEffect(s, step, s', key);
  }

  lemma PopsItsOwnNext(s: State, step: Step, s': State, key: Key)
    requires OneWorkerPerKey(s) && OneWorkerPerKey(s') && Next(s, step, s')
    requires PopsItsOwn(s, key) && Timely(s, step, key)
    ensures PopsItsOwn(s', key)
  {
    BegunArePopped(s, step, s', key);
    hide OneWorkerPerKey, Next, Timely, TopExecutes, BegunIn, PoppedIn, Running;
    match step {
      case Push(k, c) => if k == key { PushKeepsTop(s, c, s', key); } else { OthersKeepTop(s, step, s', key); }
      case Start(_) => OthersKeepTop(s, step, s', key);
      case Poll(w, idle) => PollKeepsTop(s, w, idle, s', key);
      case Finish(w) => FinishKeepsTop(s, w, s', key);
    }
  }

  lemma {:induction false} TimelyPopsItsOwn(states: seq<State>, steps: seq<Step>, key: Key, n: nat)
    requires IsRun(states, steps) && n <= |steps| && IsTimely(states, steps, key, n)
    ensures PopsItsOwn(states[n], key)
  {
    hide Next, OneWorkerPerKey, PopsItsOwn, Timely, ExecutingWaits, EarliestFirst, Begins, NothingLost;
    if n == 0 {
      assert PopsItsOwn(Initial, key) by { NothingAtFirst(key); }
    } else {
      TimelyPopsItsOwn(states, steps, key, n - 1);
      RunKeepsInv(states, steps, n - 1);
      RunKeepsInv(states, steps, n);
      PopsItsOwnNext(states[n - 1], steps[n - 1], states[n], key);
    }
  }

  lemma NothingAtFirst(key: Key)
    ensures PopsItsOwn(Initial, key)
  {
    RunningGone(Initial, key);
  }

  /** A worker is executing a command although an earlier one has become the top of its queue. */
  ghost predicate Overtaken(s: State, key: Key) {
    exists w :: IsOvertaken(s, key, w)
  }

  ghost predicate IsOvertaken(s: State, key: Key, w: nat) {
    && Serves(s, w, key) && s.workers[w].Executing?
    && s.workers[w].queue in s.queues && s.queues[s.workers[w].queue] != []
    && s.queues[s.workers[w].queue][0].tm < s.workers[w].cmd.tm
  }

  /** A command was popped more often than begun. */
  ghost predicate Skipped(s: State, key: Key) {
    exists c :: PoppedIn(s.log, key)[c] > BegunIn(s.log, key)[c]
  }

  ghost predicate Broken(s: State, key: Key) { Overtaken(s, key) || Skipped(s, key) }

  lemma UntimelyOvertakes(s: State, step: Step, s': State, key: Key)
    requires OneWorkerPerKey(s) && ExecutingWaits(s) && Next(s, step, s') && !Timely(s, step, key)
    ensures Broken(s', key)
  {
    hide KeysServed, Exclusive, Skipped;
    var c :| IsExecuting(s, key, c) && step.cmd.tm < c.tm;
    var w :| Serves(s, w, key) && s.workers[w].Executing? && s.workers[w].cmd == c;
    var q' := s'.queues[s.table[key]];
    assert step.cmd in multiset(q');
    assert step.cmd in q';
    assert IsOvertaken(s', key, w);
  }

  /** No command was enqueued twice for the key. */
  ghost predicate Distinct(log: seq<Event>, key: Key) { forall c :: EnqueuedIn(log, key)[c] <= 1 }

  lemma SameSize(a: multiset<Command>, b: multiset<Command>)
    requires a <= b && |a| == |b|
    ensures a == b
  {
    assert b == a + (b - a);
    assert |b - a| == 0;
  }

  lemma OneIsSkipped(popped: multiset<Command>, begun: multiset<Command>, c: Command)
    requires |popped| == |begun| && popped[c] < begun[c]
    ensures exists d :: popped[d] > begun[d]
  {
    if popped <= begun {
      SameSize(popped, begun);
    }
  }

  /** Popping an earlier command than the one executed skips it. */
  lemma PopSkips(s: State, w: nat, s': State, key: Key)
    requires Inv(s) && Inv(s') && Next(s, Finish(w), s') && IsOvertaken(s, key, w) && Distinct(s.log, key)
    ensures Skipped(s', key)
  {
    var c := s.workers[w].cmd;
    assert c in Waiting(s, key) by { assert WorkersServe(s); }
    assert Begins(s, key) && EnqueuedIn(s.log, key) == PoppedIn(s.log, key) + Waiting(s, key);
    hide OneWorkerPerKey, NothingLost, EarliestFirst, Waiting, Running, EnqueuedIn, PoppedIn, BegunIn, Popped;
    FinishCounts(s, w, s');
    assert EnqueuedIn(s.log, key)[c] <= 1;
    OneIsSkipped(PoppedIn(s'.log, key), BegunIn(s'.log, key), c);
  }

  lemma OvertakenByPush(s: State, c: Command, s': State, key: Key, w: nat)
    requires OneWorkerPerKey(s) && Next(s, Push(key, c), s') && IsOvertaken(s, key, w)
    ensures IsOvertaken(s', key, w)
  {
    hide KeysServed, Exclusive, Popped;
    var qid := s.table[key];
    assert s.queues[qid][0] in multiset(s'.queues[qid]);
  }

  lemma OvertakenStays(s: State, step: Step, s': State, key: Key, w: nat)
    requires OneWorkerPerKey(s) && Next(s, step, s') && IsOvertaken(s, key, w) && step != Finish(w)
    ensures IsOvertaken(s', key, w)
  {
    hide KeysServed, Popped, IsQueue, Pushed;
    if step.Push? && step.key == key { OvertakenByPush(s, step.cmd, s', key, w); }
  }

  /** What was skipped is gone from the queue, and does not begin any more. */
  lemma SkippedStays(s: State, step: Step, s': State, key: Key)
    requires Inv(s) && Inv(s') && Next(s, step, s') && Skipped(s, key) && Distinct(s.log, key)
    ensures Skipped(s', key)
  {
    hide OneWorkerPerKey, Next, Begins, EarliestFirst, ExecutingWaits, Running, EnqueuedIn, PoppedIn, BegunIn, Waiting;
    var c :| PoppedIn(s.log, key)[c] > BegunIn(s.log, key)[c];
    assert EnqueuedIn(s.log, key) == PoppedIn(s.log, key) + Waiting(s, key);
    assert EnqueuedIn(s.log, key)[c] <= 1;
    var effect := StepEffect(s, step, s', key);
    assert PoppedIn(s'.log, key)[c] > BegunIn(s'.log, key)[c];
  }

  lemma InvWorkers(s: State)
    requires Inv(s)
    ensures OneWorkerPerKey(s) && ExecutingWaits(s)
  {}

  lemma TopWaits(s: State, w: nat)
    requires OneWorkerPerKey(s) && w in s.workers && s.workers[w].Polling? && s.workers[w].queue in s.queues
    ensures s.queues[s.workers[w].queue] != [] ==> s.queues[s.workers[w].queue][0] in Waiting(s, s.workers[w].key)
  {
    hide KeysServed, Exclusive;
  }

  lemma {:induction false} PrefixDistinct(states: seq<State>, steps: seq<Step>, key: Key, n: nat)
    requires IsRun(states, steps) && n <= |steps| && Distinct(states[|steps|].log, key)
    ensures Distinct(states[n].log, key)
    decreases |steps| - n
  {
    if n < |steps| {
      PrefixDistinct(states, steps, key, n + 1);
      RunKeepsInv(states, steps, n);
      InvWorkers(states[n]);
      Logged(states[n], steps[n], states[n + 1]);
      hide Inv, OneWorkerPerKey, EnqueuedIn, Next;
      var log, log' := states[n].log, states[n + 1].log;
      if log' != log { LogNext(log, log'[|log|], key); }
      forall c ensures EnqueuedIn(log, key)[c] <= 1 { assert EnqueuedIn(log', key)[c] <= 1; }
    }
  }

  lemma BrokenStays(s: State, step: Step, s': State, key: Key)
    requires Inv(s) && Inv(s') && Next(s, step, s') && Distinct(s.log, key) && Broken(s, key)
    ensures Broken(s', key)
  {
    InvWorkers(s);
    hide Next, OneWorkerPerKey, Distinct, Skipped, IsOvertaken, Inv;
    if Skipped(s, key) {
      SkippedStays(s, step, s', key);
    } else {
      var w :| IsOvertaken(s, key, w);
      if step == Finish(w) { PopSkips(s, w, s', key); } else { OvertakenStays(s, step, s', key, w); }
    }
  }

  lemma {:induction false} BrokenForever(states: seq<State>, steps: seq<Step>, key: Key, i: nat, n: nat)
    requires IsRun(states, steps) && i <= n <= |steps| && Distinct(states[|steps|].log, key) && Broken(states[i], key)
    ensures Broken(states[n], key)
  {
    hide Next, Inv, Distinct, Broken;
    if i < n {
      BrokenForever(states, steps, key, i, n - 1);
      RunKeepsInv(states, steps, n - 1);
      RunKeepsInv(states, steps, n);
      PrefixDistinct(states, steps, key, n - 1);
      BrokenStays(states[n - 1], steps[n - 1], states[n], key);
    }
  }

  /** After an untimely push, a command is executing below the top or has been popped in place of another one. */
  lemma UntimelySkips(states: seq<State>, steps: seq<Step>, key: Key, i: nat)
    requires IsRun(states, steps) && i < |steps| && Distinct(states[|steps|].log, key)
    requires !Timely(states[i], steps[i], key)
    ensures Broken(states[|steps|], key)
  {
    RunKeepsInv(states, steps, i);
    InvWorkers(states[i]);
    hide Next, OneWorkerPerKey, ExecutingWaits, Inv, Timely, Distinct, Broken;
    UntimelyOvertakes(states[i], steps[i], states[i + 1], key);
    BrokenForever(states, steps, key, i + 1, |steps|);
  }

  /** A key that is not in the table has nothing waiting and nothing executing. */
  lemma KeyGone(s: State, key: Key)
    requires Inv(s) && key !in s.table
    ensures EnqueuedIn(s.log, key) == PoppedIn(s.log, key) && Running(s, key) == multiset{} && !Overtaken(s, key)
  {
    hide KeysServed, Exclusive, QueuesOwned, EarliestFirst, Begins, EnqueuedIn, PoppedIn, Running;
    assert EnqueuedIn(s.log, key) == PoppedIn(s.log, key) + Waiting(s, key);
    RunningGone(s, key);
  }

  /** At any time, as long as all pushes were timely, no command has been executed more often than enqueued. */
  lemma TimelyExecutesOnce(states: seq<State>, steps: seq<Step>, key: Key, n: nat)
    requires IsRun(states, steps) && n <= |steps| && IsTimely(states, steps, key, n)
    ensures BegunIn(states[n].log, key) <= EnqueuedIn(states[n].log, key)
    ensures key !in states[n].table ==> BegunIn(states[n].log, key) == EnqueuedIn(states[n].log, key)
  {
    var s := states[n];
    RunKeepsInv(states, steps, n);
    TimelyPopsItsOwn(states, steps, key, n);
    hide IsRun, IsTimely, EarliestFirst, Begins, BegunIn, PoppedIn, EnqueuedIn, Running;
    assert EnqueuedIn(s.log, key) == PoppedIn(s.log, key) + Waiting(s, key);
    if key in s.table { RunningWaits(s, key); } else { KeyGone(s, key); }
  }

  lemma RunningWaits(s: State, key: Key)
    requires OneWorkerPerKey(s) && ExecutingWaits(s)
    ensures Running(s, key) <= Waiting(s, key)
  {
    hide KeysServed;
  }

  /**
   In every interleaving in which the commands of a key are distinct, and the key has left the table: each of its
   commands was executed exactly once, and nothing else was, exactly if no command was pushed while a later one of
   the key was being executed.
   */
  lemma ExactlyOnceIff(states: seq<State>, steps: seq<Step>, key: Key)
    requires IsRun(states, steps) && key !in states[|steps|].table && Distinct(states[|steps|].log, key)
    ensures var log := states[|steps|].log;
      BegunIn(log, key) == EnqueuedIn(log, key) <==> IsTimely(states, steps, key, |steps|)
  {
    var s := states[|steps|];
    RunKeepsInv(states, steps, |steps|);
    KeyGone(s, key);
    hide IsRun, Inv, Timely, BegunIn, PoppedIn, EnqueuedIn;
    if IsTimely(states, steps, key, |steps|) {
      TimelyExecutesOnce(states, steps, key, |steps|);
    } else {
      var i :| 0 <= i < |steps| && !Timely(states[i], steps[i], key);
      UntimelySkips(states, steps, key, i);
    }
  }

  // ----- Timely runs whose executions do not follow the timestamps -----

  /** No command of the key was pushed after the beginning of an execution with a greater timestamp. */
  ghost predicate NoLatePush(log: seq<Event>, key: Key) {
    forall i, m :: 0 <= i < m < |log| && Begun(log, i, key) && log[m].Enqueued? && log[m].key == key ==>
      log[i].cmd.tm <= log[m].cmd.tm
  }

  /** Every beginning of the log is the log of an earlier state. */
  lemma {:induction false} EarlierLog(states: seq<State>, steps: seq<Step>, n: nat, m: nat) returns (k: nat)
    requires IsRun(states, steps) && n <= |steps| && m <= |states[n].log|
    ensures k <= n && states[k].log == states[n].log[..m]
  {
    if m == |states[n].log| {
      k := n;
    } else {
      RunKeepsInv(states, steps, n - 1);
      InvWorkers(states[n - 1]);
      Logged(states[n - 1], steps[n - 1], states[n]);
      hide Inv, Next, OneWorkerPerKey;
      k := EarlierLog(states, steps, n - 1, m);
      assert states[n - 1].log[..m] == states[n].log[..m];
    }
  }

  lemma {:induction false} BeginsLater(log: seq<Event>, m: nat, key: Key, c: Command) returns (j: nat)
    requires m <= |log| && BegunIn(log[..m], key)[c] < BegunIn(log, key)[c]
    ensures m <= j < |log| && log[j] == Began(key, c)
    decreases |log|
  {
    assert log[..|log|] == log;
    var n := |log| - 1;
    var e := log[n];
    if e == Began(key, c) {
      j := n;
    } else {
      assert log[..n][..m] == log[..m];
      j := BeginsLater(log[..n], m, key, c);
    }
  }

  lemma {:induction false} EnqueuedGrows(log: seq<Event>, m: nat, key: Key, c: Command)
    requires m < |log| && log[m] == Enqueued(key, c)
    ensures EnqueuedIn(log[..m], key)[c] < EnqueuedIn(log, key)[c]
  {
    var before, e := log[..|log| - 1], log[|log| - 1];
    assert log == before + [e];
    LogNext(before, e, key);
    hide EnqueuedIn;
    if m < |before| {
      assert before[..m] == log[..m];
      EnqueuedGrows(before, m, key, c);
    } else {
      assert before == log[..m];
    }
  }

  /** In a timely run, each command of a key that has left the table was executed after it was pushed. */
  lemma PushedThenBegun(states: seq<State>, steps: seq<Step>, key: Key, m: nat) returns (j: nat)
    requires IsRun(states, steps) && key !in states[|steps|].table && IsTimely(states, steps, key, |steps|)
    requires var log := states[|steps|].log;
      m < |log| && log[m].Enqueued? && log[m].key == key
    ensures var log := states[|steps|].log;
      m < j < |log| && log[j] == Began(key, log[m].cmd)
  {
    var log := states[|steps|].log;
    var c := log[m].cmd;
    var k := EarlierLog(states, steps, |steps|, m);
    assert IsTimely(states, steps, key, k);
    hide IsRun, IsTimely, BegunIn, EnqueuedIn;
    TimelyExecutesOnce(states, steps, key, k);
    TimelyExecutesOnce(states, steps, key, |steps|);
    EnqueuedGrows(log, m, key, c);
    j := BeginsLater(log, m, key, c);
  }

  /**
   In every timely run, the executions of a key that has left the table follow the timestamps exactly if no command
   was pushed after the beginning of an execution with a greater timestamp.
   */
  lemma TimelyInOrderIff(states: seq<State>, steps: seq<Step>, key: Key)
    requires IsRun(states, steps) && key !in states[|steps|].table && IsTimely(states, steps, key, |steps|)
    ensures InOrder(states[|steps|].log, key) <==> NoLatePush(states[|steps|].log, key)
  {
    var log := states[|steps|].log;
    InOrderIff(states, steps, key);
    hide IsRun, IsTimely;
    if InOrder(log, key) {
      forall i, m | 0 <= i < m < |log| && Begun(log, i, key) && log[m].Enqueued? && log[m].key == key
        ensures log[i].cmd.tm <= log[m].cmd.tm
      {
        var j := PushedThenBegun(states, steps, key, m);
        assert Begun(log, j, key);
      }
    }
  }

  /** One key, whose queue and worker have the number 0. */
  function Lone(key: Key, q: seq<Command>, w: Worker, log: seq<Event>): State {
    State(map[key := 0], map[0 := q], map[0 := w], 1, 1, log)
  }

  lemma LoneFirst(key: Key, c: Command)
    ensures Next(Initial, Push(key, c), Lone(key, [c], Starting(key), [Enqueued(key, c)]))
  {
    assert map[][key := 0] == map[key := 0];
  }

  lemma LonePush(key: Key, q: seq<Command>, w: Worker, log: seq<Event>, c: Command, q': seq<Command>)
    requires Pushed(q, c, q')
    ensures Next(Lone(key, q, w, log), Push(key, c), Lone(key, q', w, log + [Enqueued(key, c)]))
  {
    assert map[0 := q][0 := q'] == map[0 := q'];
  }

  lemma LoneStart(key: Key, q: seq<Command>, log: seq<Event>)
    ensures Next(Lone(key, q, Starting(key), log), Start(0), Lone(key, q, Polling(key, 0), log))
  {
    assert map[0 := Starting(key)][0 := Polling(key, 0)] == map[0 := Polling(key, 0)];
  }

  lemma LonePoll(key: Key, q: seq<Command>, log: seq<Event>, c: Command)
    requires q != [] && q[0] == c
    ensures Next(Lone(key, q, Polling(key, 0), log), Poll(0, false),
                 Lone(key, q, Executing(key, 0, c), log + [Began(key, c)]))
  {
    assert map[0 := Polling(key, 0)][0 := Executing(key, 0, c)] == map[0 := Executing(key, 0, c)];
  }

  lemma LoneFinish(key: Key, q: seq<Command>, c: Command, log: seq<Event>, q': seq<Command>)
    requires Popped(q, q')
    ensures Next(Lone(key, q, Executing(key, 0, c), log), Finish(0),
                 Lone(key, q', Polling(key, 0), log + [Finished(key, c, q[0])]))
  {
    assert map[0 := Executing(key, 0, c)][0 := Polling(key, 0)] == map[0 := Polling(key, 0)];
    assert map[0 := q][0 := q'] == map[0 := q'];
  }

  lemma LoneLeaves(key: Key, log: seq<Event>)
    ensures Next(Lone(key, [], Polling(key, 0), log), Poll(0, true), State(map[], map[0 := []], map[], 1, 1, log))
  {
    assert map[key := 0] - {key} == map[] && map[0 := Polling(key, 0)] - {0} == map[];
  }

  lemma LoneIsTimely(key: Key, q: seq<Command>, w: Worker, log: seq<Event>, step: Step)
    requires step.Push? ==> !w.Executing?
    ensures Timely(Lone(key, q, w, log), step, key)
  {
  }

  const FIVE := Command(0, 5)
  const THREE := Command(1, 3)

  lemma QueuesOfTwo()
    ensures Popped([FIVE], []) && Pushed([], THREE, [THREE])
    ensures Pushed([FIVE], THREE, [THREE, FIVE]) && Popped([THREE, FIVE], [FIVE])
  {
    assert multiset([THREE, FIVE]) == multiset([FIVE]) + multiset{THREE};
  }

  /** A timely run in which a key's command with the timestamp 5 is executed before the one with the timestamp 3. */
  lemma TimelyOutOfOrder(key: Key) returns (states: seq<State>, steps: seq<Step>)
    ensures IsRun(states, steps) && IsTimely(states, steps, key, |steps|)
    ensures !InOrder(states[|steps|].log, key)
  {
    hide Next, Lone, Pushed, Popped, Timely, IsExecuting;
    var l1 := [Enqueued(key, FIVE)];
    var l2 := l1 + [Began(key, FIVE)];
    var l3 := l2 + [Finished(key, FIVE, FIVE)];
    var l4 := l3 + [Enqueued(key, THREE)];
    var l5 := l4 + [Began(key, THREE)];
    QueuesOfTwo();
    LoneFirst(key, FIVE);
    LoneStart(key, [FIVE], l1);
    LonePoll(key, [FIVE], l1, FIVE);
    LoneFinish(key, [FIVE], FIVE, l2, []);
    LonePush(key, [], Polling(key, 0), l3, THREE, [THREE]);
    LonePoll(key, [THREE], l4, THREE);
    states := [Initial, Lone(key, [FIVE], Starting(key), l1), Lone(key, [FIVE], Polling(key, 0), l1),
               Lone(key, [FIVE], Executing(key, 0, FIVE), l2), Lone(key, [], Polling(key, 0), l3),
               Lone(key, [THREE], Polling(key, 0), l4), Lone(key, [THREE], Executing(key, 0, THREE), l5)];
    steps := [Push(key, FIVE), Start(0), Poll(0, false), Finish(0), Push(key, THREE), Poll(0, false)];
    InitialIsTimely(key, steps[0]);
    LoneIsTimely(key, [FIVE], Starting(key), l1, steps[1]);
    LoneIsTimely(key, [FIVE], Polling(key, 0), l1, steps[2]);
    LoneIsTimely(key, [FIVE], Executing(key, 0, FIVE), l2, steps[3]);
    LoneIsTimely(key, [], Polling(key, 0), l3, steps[4]);
    LoneIsTimely(key, [THREE], Polling(key, 0), l4, steps[5]);
    LogOfLone(key, [THREE], Executing(key, 0, THREE), l5);
    assert Begun(l5, 1, key) && Begun(l5, 4, key);
  }

  lemma InitialIsTimely(key: Key, step: Step)
    ensures Timely(Initial, step, key)
  {
  }

  lemma LogOfLone(key: Key, q: seq<Command>, w: Worker, log: seq<Event>)
    ensures Lone(key, q, w, log).log == log
  {
  }

  /**
   An untimely run: the command with the timestamp 3 comes while the one with the timestamp 5 is being executed, is
   popped in its place, and is never executed; the other one is executed twice.
   */
  lemma UntimelyRun(key: Key) returns (states: seq<State>, steps: seq<Step>)
    ensures IsRun(states, steps) && key !in states[|steps|].table && !IsTimely(states, steps, key, |steps|)
    ensures EnqueuedIn(states[|steps|].log, key) == multiset{FIVE, THREE}
    ensures PoppedIn(states[|steps|].log, key) == multiset{FIVE, THREE}
    ensures BegunIn(states[|steps|].log, key) == multiset{FIVE, FIVE}
  {
    hide Next, Lone, Pushed, Popped, Timely, IsExecuting, EnqueuedIn, PoppedIn, BegunIn;
    var l1 := [Enqueued(key, FIVE)];
    var l2 := l1 + [Began(key, FIVE)];
    var l3 := l2 + [Enqueued(key, THREE)];
    var l4 := l3 + [Finished(key, FIVE, THREE)];
    var l5 := l4 + [Began(key, FIVE)];
    var l6 := l5 + [Finished(key, FIVE, FIVE)];
    QueuesOfTwo();
    LoneFirst(key, FIVE);
    LoneStart(key, [FIVE], l1);
    LonePoll(key, [FIVE], l1, FIVE);
    LonePush(key, [FIVE], Executing(key, 0, FIVE), l2, THREE, [THREE, FIVE]);
    LoneFinish(key, [THREE, FIVE], FIVE, l3, [FIVE]);
    LonePoll(key, [FIVE], l4, FIVE);
    LoneFinish(key, [FIVE], FIVE, l5, []);
    LoneLeaves(key, l6);
    states := [Initial, Lone(key, [FIVE], Starting(key), l1), Lone(key, [FIVE], Polling(key, 0), l1),
               Lone(key, [FIVE], Executing(key, 0, FIVE), l2), Lone(key, [THREE, FIVE], Executing(key, 0, FIVE), l3),
               Lone(key, [FIVE], Polling(key, 0), l4), Lone(key, [FIVE], Executing(key, 0, FIVE), l5),
               Lone(key, [], Polling(key, 0), l6), State(map[], map[0 := []], map[], 1, 1, l6)];
    steps := [Push(key, FIVE), Start(0), Poll(0, false), Push(key, THREE), Finish(0), Poll(0, false), Finish(0),
              Poll(0, true)];
    assert [] + l1 == l1;
    FirstCounts(key, [], l1, l2, l3);
    LastCounts(key, l3, l4, l5, l6);
    ThreeIsUntimely(key, [FIVE], l2);
    assert !Timely(states[3], steps[3], key);
  }

  lemma ThreeIsUntimely(key: Key, q: seq<Command>, log: seq<Event>)
    ensures !Timely(Lone(key, q, Executing(key, 0, FIVE), log), Push(key, THREE), key)
  {
    var s := Lone(key, q, Executing(key, 0, FIVE), log);
    assert Serves(s, 0, key) && IsExecuting(s, key, FIVE);
  }

  lemma FirstCounts(key: Key, l0: seq<Event>, l1: seq<Event>, l2: seq<Event>, l3: seq<Event>)
    requires l0 == [] && l1 == l0 + [Enqueued(key, FIVE)] && l2 == l1 + [Began(key, FIVE)]
    requires l3 == l2 + [Enqueued(key, THREE)]
    ensures EnqueuedIn(l3, key) == multiset{FIVE, THREE} && PoppedIn(l3, key) == multiset{}
    ensures BegunIn(l3, key) == multiset{FIVE}
  {
    LogNext(l0, Enqueued(key, FIVE), key);
    LogNext(l1, Began(key, FIVE), key);
    LogNext(l2, Enqueued(key, THREE), key);
  }

  lemma LastCounts(key: Key, l3: seq<Event>, l4: seq<Event>, l5: seq<Event>, l6: seq<Event>)
    requires EnqueuedIn(l3, key) == multiset{FIVE, THREE} && PoppedIn(l3, key) == multiset{}
    requires BegunIn(l3, key) == multiset{FIVE}
    requires l4 == l3 + [Finished(key, FIVE, THREE)] && l5 == l4 + [Began(key, FIVE)]
    requires l6 == l5 + [Finished(key, FIVE, FIVE)]
    ensures EnqueuedIn(l6, key) == multiset{FIVE, THREE} && PoppedIn(l6, key) == multiset{FIVE, THREE}
    ensures BegunIn(l6, key) == multiset{FIVE, FIVE}
  {
    hide EnqueuedIn, PoppedIn, BegunIn;
    LogNext(l3, Finished(key, FIVE, THREE), key);
    LogNext(l4, Began(key, FIVE), key);
    LogNext(l5, Finished(key, FIVE, FIVE), key);
  }

  // ----- The sections as code -----

  predicate Ordered(q: seq<Command>) {
    forall i, j :: 0 <= i <= j < |q| ==> q[i].tm <= q[j].tm
  }

  /** One heap among those that push may leave: the command goes behind those that are not later. */
  function Inserted(q: seq<Command>, c: Command): (r: seq<Command>) {
    if q == [] || c.tm < q[0].tm then [c] + q else [q[0]] + Inserted(q[1..], c)
  }

  lemma {:induction false} InsertedIsQueue(q: seq<Command>, c: Command)
    requires Ordered(q)
    ensures Ordered(Inserted(q, c)) && Pushed(q, c, Inserted(q, c))
  {
    InsertedStep(q, c);
    hide Inserted, Pushed, Ordered;
    if q == [] || c.tm < q[0].tm {
      InsertedFirst(q, c);
    } else {
      assert q == [q[0]] + q[1..];
      TailIsOrdered(q);
      InsertedIsQueue(q[1..], c);
      InsertedBehind(q[0], q[1..], c, Inserted(q[1..], c));
    }
  }

  lemma InsertedStep(q: seq<Command>, c: Command)
    ensures Inserted(q, c) == if q == [] || c.tm < q[0].tm then [c] + q else [q[0]] + Inserted(q[1..], c)
  {
  }

  lemma TailIsOrdered(q: seq<Command>)
    requires Ordered(q) && q != []
    ensures Ordered(q[1..])
  {
  }

  lemma InsertedFirst(q: seq<Command>, c: Command)
    requires Ordered(q) && (q == [] || c.tm < q[0].tm)
    ensures Ordered([c] + q) && Pushed(q, c, [c] + q)
  {
  }

  lemma InsertedBehind(top: Command, rest: seq<Command>, c: Command, r: seq<Command>)
    requires top.tm <= c.tm && Ordered([top] + rest) && Ordered(r) && Pushed(rest, c, r)
    ensures Ordered([top] + r) && Pushed([top] + rest, c, [top] + r)
  {
    var q := [top] + rest;
    forall i | 0 <= i < |r| ensures top.tm <= r[i].tm {
      assert r[i] in multiset(r);
      if r[i] != c {
        assert r[i] in multiset(rest);
        var j :| 0 <= j < |rest| && rest[j] == r[i];
        assert q[0].tm <= q[j + 1].tm;
      }
    }
  }

  lemma OneIsOrdered(c: Command)
    ensures Ordered([c])
  {
  }

  lemma TailIsQueue(q: seq<Command>)
    requires Ordered(q) && q != []
    ensures Ordered(q[1..]) && Popped(q, q[1..])
  {
    assert q == [q[0]] + q[1..];
  }

  class StateQueues {
    var table: map<Key, nat>
    var queues: map<nat, seq<Command>>
    var workers: map<nat, Worker>
    var nextQueue: nat
    var nextWorker: nat
    ghost var log: seq<Event>

    ghost function Abs(): State
      reads this
    {
      State(table, queues, workers, nextQueue, nextWorker, log)
    }

    ghost predicate Valid()
      reads this
    {
      && OneWorkerPerKey(Abs()) && ExecutingWaits(Abs())
      && forall qid :: qid in queues ==> Ordered(queues[qid])
    }

    constructor ()
      ensures Valid() && Abs() == Initial
    {
      table, queues, workers, nextQueue, nextWorker, log := map[], map[], map[], 0, 0, [];
    }

    /** The section of onStateChange: push to the key's queue, or make one and start its worker. */
    method OnStateChange(key: Key, cmd: Command)
      requires Valid()
      modifies this
      ensures Valid() && Next(old(Abs()), Push(key, cmd), Abs())
    {
      hide KeysServed, Exclusive, WorkersServe, Ordered, Inserted, Pushed;
      OneIsOrdered(cmd);
      ghost var s := Abs();
      log := log + [Enqueued(key, cmd)];
      if key in table {
        var q := table[key];
        InsertedIsQueue(queues[q], cmd);
        queues := queues[q := Inserted(queues[q], cmd)];
      } else {
        queues := queues[nextQueue := [cmd]];
        table := table[key := nextQueue];
        workers := workers[nextWorker := Starting(key)];
        nextQueue, nextWorker := nextQueue + 1, nextWorker + 1;
      }
      OneWorkerIsKept(s, Push(key, cmd), Abs());
      ExecutingStillWaits(s, Push(key, cmd), Abs());
    }

    /** The queue lookup at the start of processStateUpdates; the key is always there. */
    method StartWorker(w: nat)
      requires Valid() && w in workers && workers[w].Starting?
      modifies this
      ensures Valid() && Next(old(Abs()), Start(w), Abs())
    {
      ghost var s := Abs();
      var key := workers[w].key;
      workers := workers[w := Polling(key, table[key])];
      OneWorkerIsKept(s, Start(w), Abs());
      ExecutingStillWaits(s, Start(w), Abs());
    }

    /** The section that takes the next command; an idle worker with an empty queue leaves. */
    method PollQueue(w: nat, idle: bool)
      requires Valid() && w in workers && workers[w].Polling?
      modifies this
      ensures Valid() && Next(old(Abs()), Poll(w, idle), Abs())
    {
      ghost var s := Abs();
      var key, q := workers[w].key, workers[w].queue;
      if queues[q] == [] {
        if idle {
          table := table - {key};
          workers := workers - {w};
        }
      } else {
        var top := queues[q][0];
        workers := workers[w := Executing(key, q, top)];
        log := log + [Began(key, top)];
      }
      OneWorkerIsKept(s, Poll(w, idle), Abs());
      ExecutingStillWaits(s, Poll(w, idle), Abs());
    }

    /** The section after an execution: whatever is on top by now is removed. */
    method PopQueue(w: nat)
      requires Valid() && w in workers && workers[w].Executing?
      modifies this
      ensures Valid() && Next(old(Abs()), Finish(w), Abs())
    {
      assert workers[w].queue in queues;
      hide OneWorkerPerKey, Ordered, Popped;
      ghost var s := Abs();
      var Executing(key, q, cmd) := workers[w];
      log := log + [Finished(key, cmd, queues[q][0])];
      TailIsQueue(queues[q]);
      queues := queues[q := queues[q][1..]];
      workers := workers[w := Polling(key, q)];
      OneWorkerIsKept(s, Finish(w), Abs());
      ExecutingStillWaits(s, Finish(w), Abs());
    }
  }
}
