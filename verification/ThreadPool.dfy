/** GThreadPool as a system of clients and workers: submission, the start of the threads, the
    count of tasks in flight, and waiting for the pool to run empty. Any interleaving of the
    steps may occur. */
module ThreadPool {
  import opened Wrappers

  /** The counter is an unsigned 32-bit number. */
  const MODULUS := 0x1_0000_0000

  function Incremented(counter: nat): nat { (counter + 1) % MODULUS }
  function Decremented(counter: nat): nat { (counter + MODULUS - 1) % MODULUS }

  // ----- states and actions -----

  /** What has become of a task:
      - Counted: in flight, but not posted yet;
      - Queued: posted;
      - Running: taken by a worker;
      - Calling: taken by a worker, and waiting for the submission mutex in order to submit a
        task itself;
      - Settled: its function has returned or thrown, and its promise was seen to;
      - Uncounted: no longer in flight; notify_one is still to come;
      - Done: the worker is free again. */
  datatype Stage = Counted | Queued | Running | Calling | Settled | Uncounted | Done

  /** `resolved` counts how often the promise was given a value or an exception. */
  datatype Task = Task(isVoid: bool, stage: Stage, threw: bool, resolved: nat)

  /** Where a client is: outside, submitting a task, about to post it, in wait() with the counter
      mutex about to be taken, or in the wait set of the condition variable. */
  datatype Client = Outside | Submitting(isVoid: bool) | Posting(task: nat) | Checking | Sleeping

  /** `lock` is the client that owns the submission mutex; `creations` counts how often threads
      were created. */
  datatype State = State(
    started: bool,
    group: nat,
    creations: nat,
    counter: nat,
    lock: Option<nat>,
    tasks: seq<Task>,
    clients: seq<Client>,
    terminated: bool)

  /** Nobody waits for the steps of a task that submits another one, once it owns the mutex;
      they are one action. */
  datatype Action =
    | BeginSubmit(client: nat, isVoid: bool)
    | StartThreads(client: nat)
    | CountTask(client: nat)
    | Post(client: nat)
    | BeginWait(client: nat)
    | Check(client: nat)
    | WakeSpuriously(client: nat)
    | Start(task: nat)
    | Call(task: nat)
    | Nested(task: nat, isVoid: bool)
    | Finish(task: nat, throws: bool)
    | Uncount(task: nat)
    | Notify(task: nat, target: Option<nat>)

  predicate IsClientAction(a: Action) {
    a.BeginSubmit? || a.StartThreads? || a.CountTask? || a.Post? || a.BeginWait? || a.Check? || a.WakeSpuriously?
  }

  function Total(tasks: seq<Task>, f: Task -> nat): nat {
    if tasks == [] then 0 else f(tasks[0]) + Total(tasks[1..], f)
  }

  predicate IsInFlight(t: Task) { t.stage != Uncounted && t.stage != Done }

  function InFlight(t: Task): nat { if IsInFlight(t) then 1 else 0 }
  predicate IsBusy(t: Task) { t.stage == Running || t.stage == Calling || t.stage == Settled || t.stage == Uncounted }
  function Busy(t: Task): nat { if IsBusy(t) then 1 else 0 }

  /** How many steps of workers a task still takes. */
  function StepsLeft(t: Task): nat {
    match t.stage
    case Counted => 5
    case Queued => 5
    case Running => 4
    case Calling => 3
    case Settled => 2
    case Uncounted => 1
    case Done => 0
  }

  predicate NobodySleeps(clients: seq<Client>) { forall c :: 0 <= c < |clients| ==> !clients[c].Sleeping? }

  predicate Enabled(s: State, a: Action) {
    !s.terminated &&
    (IsClientAction(a) ==> a.client < |s.clients|) && (!IsClientAction(a) ==> a.task < |s.tasks|) &&
    match a
    case BeginSubmit(c, _) => s.clients[c].Outside? && s.lock == None
    case StartThreads(c) => s.clients[c].Submitting? && !s.started
    case CountTask(c) => s.clients[c].Submitting? && s.started
    case Post(c) => s.clients[c].Posting? && s.clients[c].task < |s.tasks|
    case BeginWait(c) => s.clients[c].Outside? && s.lock == None
    case Check(c) => s.clients[c].Checking?
    case WakeSpuriously(c) => s.clients[c].Sleeping?
    case Start(k) => s.tasks[k].stage == Queued && Total(s.tasks, Busy) < s.group
    case Call(k) => s.tasks[k].stage == Running
    case Nested(k, _) => s.tasks[k].stage == Calling && s.lock == None
    case Finish(k, _) => s.tasks[k].stage == Running
    case Uncount(k) => s.tasks[k].stage == Settled
    case Notify(k, target) =>
      s.tasks[k].stage == Uncounted &&
      match target
      case None => NobodySleeps(s.clients)
      case Some(c) => c < |s.clients| && s.clients[c].Sleeping?
  }

  function Leave(s: State, c: nat): State
    requires c < |s.clients|
  {
    s.(clients := s.clients[c := Outside], lock := None)
  }

  function ToStage(s: State, k: nat, stage: Stage): State
    requires k < |s.tasks|
  {
    s.(tasks := s.tasks[k := s.tasks[k].(stage := stage)])
  }

  /** The promise of a task that returns something is resolved in either case, that of a void
      task only by an exception. */
  function Settle(t: Task, throws: bool): Task {
    t.(stage := Settled, threw := throws, resolved := t.resolved + if t.isVoid && !throws then 0 else 1)
  }

  /** A further task, counted and posted. */
  function WithQueued(s: State, isVoid: bool): State {
    s.(tasks := s.tasks + [Task(isVoid, Queued, false, 0)], counter := Incremented(s.counter))
  }

  function Apply(n: nat, debug: bool, s: State, a: Action): State
    requires Enabled(s, a)
  {
    match a
    case BeginSubmit(c, isVoid) => s.(clients := s.clients[c := Submitting(isVoid)], lock := Some(c))
    case StartThreads(c) =>
      if n == 0 || s.group > 0 then Leave(s, c) else s.(started := true, group := n, creations := s.creations + 1)
    case CountTask(c) =>
      s.(tasks := s.tasks + [Task(s.clients[c].isVoid, Counted, false, 0)], counter := Incremented(s.counter),
         clients := s.clients[c := Posting(|s.tasks|)])
    case Post(c) => Leave(ToStage(s, s.clients[c].task, Queued), c)
    case BeginWait(c) => s.(clients := s.clients[c := Checking], lock := Some(c))
    case Check(c) => if s.counter == 0 then Leave(s, c) else s.(clients := s.clients[c := Sleeping])
    case WakeSpuriously(c) => s.(clients := s.clients[c := Checking])
    case Start(k) => ToStage(s, k, Running)
    case Call(k) => ToStage(s, k, Calling)
    case Nested(k, isVoid) => WithQueued(ToStage(s, k, Running), isVoid)
    case Finish(k, throws) => s.(tasks := s.tasks[k := Settle(s.tasks[k], throws)])
    case Uncount(k) =>
      if debug && s.counter == 0 then s.(terminated := true)
      else ToStage(s, k, Uncounted).(counter := Decremented(s.counter))
    case Notify(k, target) =>
      var t := ToStage(s, k, Done);
      if target.None? then t else t.(clients := t.clients[target.value := Checking])
  }

  function Initial(clients: nat): State {
    State(false, 0, 0, 0, None, [], seq(clients, _ => Outside), false)
  }

  predicate IsRun(n: nat, debug: bool, s: State, actions: seq<Action>)
    decreases |actions|
  {
    actions == [] || (Enabled(s, actions[0]) && IsRun(n, debug, Apply(n, debug, s, actions[0]), actions[1..]))
  }

  function After(n: nat, debug: bool, s: State, actions: seq<Action>): State
    requires IsRun(n, debug, s, actions)
    decreases |actions|
  {
    if actions == [] then s else After(n, debug, Apply(n, debug, s, actions[0]), actions[1..])
  }

  // ----- the invariant -----

  /** The submission mutex is owned by the one client that is not outside. */
  ghost predicate MutexHeld(s: State) {
    forall c :: 0 <= c < |s.clients| ==> (s.clients[c] != Outside <==> s.lock == Some(c))
  }

  /** Threads are created at most once, and before the first task is counted. */
  ghost predicate ThreadsCreated(n: nat, s: State) {
    s.creations == (if s.started then 1 else 0) && s.group == (if s.started then n else 0) &&
    (s.tasks != [] ==> s.started) && (s.started ==> n > 0)
  }

  ghost predicate Counts(s: State) { s.counter == Total(s.tasks, InFlight) % MODULUS }

  /** Promises are resolved exactly once, before the task is no longer in flight; that of a void
      task that has not thrown is never resolved. */
  ghost predicate PromiseKept(t: Task) {
    t.resolved ==
    if t.stage == Counted || t.stage == Queued || t.stage == Running || t.stage == Calling || (t.isVoid && !t.threw)
      then 0
    else 1
  }

  ghost predicate PromisesKept(s: State) { forall k :: 0 <= k < |s.tasks| ==> PromiseKept(s.tasks[k]) }

  /** A task that is not posted yet belongs to the client that is about to post it. */
  ghost predicate Posters(s: State) {
    (forall k :: 0 <= k < |s.tasks| && s.tasks[k].stage == Counted ==>
       s.lock.Some? && s.lock.value < |s.clients| && s.clients[s.lock.value] == Posting(k)) &&
    (forall c :: 0 <= c < |s.clients| && s.clients[c].Posting? ==>
       s.clients[c].task < |s.tasks| && s.tasks[s.clients[c].task].stage == Counted)
  }

  ghost predicate WorkersSuffice(s: State) { Total(s.tasks, Busy) <= s.group }

  /** A sleeping client with nothing to wait for is about to be notified. */
  ghost predicate SleepersServed(s: State) {
    s.counter == 0 && !NobodySleeps(s.clients) ==> exists k :: 0 <= k < |s.tasks| && s.tasks[k].stage == Uncounted
  }

  ghost predicate Invariant(n: nat, s: State) {
    MutexHeld(s) && ThreadsCreated(n, s) && Counts(s) && PromisesKept(s) && Posters(s) && WorkersSuffice(s) &&
    (s.terminated || SleepersServed(s))
  }

  // ----- sums over the tasks -----

  lemma {:induction false} TotalUpdate(tasks: seq<Task>, k: nat, t: Task, f: Task -> nat)
    requires k < |tasks|
    ensures Total(tasks[k := t], f) + f(tasks[k]) == Total(tasks, f) + f(t)
  {
    if k > 0 {
      assert tasks[k := t][1..] == tasks[1..][k - 1 := t];
      TotalUpdate(tasks[1..], k - 1, t, f);
    } else {
      assert tasks[k := t][1..] == tasks[1..];
    }
  }

  lemma {:induction false} TotalAppend(tasks: seq<Task>, t: Task, f: Task -> nat)
    ensures Total(tasks + [t], f) == Total(tasks, f) + f(t)
  {
    if tasks == [] {
      assert tasks + [t] == [t];
      assert [t][1..] == [];
    } else {
      assert (tasks + [t])[1..] == tasks[1..] + [t];
      TotalAppend(tasks[1..], t, f);
    }
  }

  lemma {:induction false} TotalAtLeast(tasks: seq<Task>, k: nat, f: Task -> nat)
    requires k < |tasks|
    ensures f(tasks[k]) <= Total(tasks, f)
  {
    if k > 0 {
      TotalAtLeast(tasks[1..], k - 1, f);
    }
  }

  lemma {:induction false} TotalPositive(tasks: seq<Task>, f: Task -> nat) returns (k: nat)
    requires Total(tasks, f) > 0
    ensures k < |tasks| && f(tasks[k]) > 0
  {
    if f(tasks[0]) > 0 {
      k := 0;
    } else {
      k := TotalPositive(tasks[1..], f);
      k := k + 1;
    }
  }

  lemma {:induction false} InFlightAtMost(tasks: seq<Task>)
    ensures Total(tasks, InFlight) <= |tasks|
  {
    if tasks != [] {
      InFlightAtMost(tasks[1..]);
    }
  }

  lemma CounterUp(x: nat)
    ensures Incremented(x % MODULUS) == (x + 1) % MODULUS
  {
  }

  lemma CounterDown(x: nat)
    requires x > 0
    ensures Decremented(x % MODULUS) == (x - 1) % MODULUS
  {
  }

  // ----- every step keeps the invariant -----

  lemma InitialInvariant(n: nat, clients: nat)
    ensures Invariant(n, Initial(clients))
  {
  }

  /** Whoever is inside owns the submission mutex and is alone. */
  lemma Alone(s: State, c: nat)
    requires MutexHeld(s) && c < |s.clients| && s.clients[c] != Outside
    ensures forall d :: 0 <= d < |s.clients| && d != c ==> s.clients[d] == Outside
  {
  }

  lemma ClientStep(n: nat, debug: bool, s: State, a: Action)
    requires Invariant(n, s) && Enabled(s, a) && IsClientAction(a) && !a.CountTask? && !a.Post?
    ensures Invariant(n, Apply(n, debug, s, a))
  {
  }

  lemma CountStep(n: nat, debug: bool, s: State, a: Action)
    requires Invariant(n, s) && Enabled(s, a) && a.CountTask?
    ensures Invariant(n, Apply(n, debug, s, a))
  {
    var t := Task(s.clients[a.client].isVoid, Counted, false, 0);
    Alone(s, a.client);
    TotalAppend(s.tasks, t, InFlight);
    TotalAppend(s.tasks, t, Busy);
    CounterUp(Total(s.tasks, InFlight));
  }

  lemma PostStep(n: nat, debug: bool, s: State, a: Action)
    requires Invariant(n, s) && Enabled(s, a) && a.Post?
    ensures Invariant(n, Apply(n, debug, s, a))
  {
    var k := s.clients[a.client].task;
    Alone(s, a.client);
    TotalUpdate(s.tasks, k, s.tasks[k].(stage := Queued), InFlight);
    TotalUpdate(s.tasks, k, s.tasks[k].(stage := Queued), Busy);
  }

  /** What a worker does to a task that is not waiting to be posted. */
  lemma TaskChanged(n: nat, s: State, k: nat, task: Task)
    requires Invariant(n, s) && k < |s.tasks| && s.tasks[k].stage != Counted && task.stage != Counted
    requires PromiseKept(task) && (Busy(task) <= Busy(s.tasks[k]) || Total(s.tasks, Busy) < s.group)
    ensures var t := s.(tasks := s.tasks[k := task]);
            ThreadsCreated(n, t) && PromisesKept(t) && Posters(t) && WorkersSuffice(t)
    ensures Total(s.tasks[k := task], InFlight) + InFlight(s.tasks[k]) == Total(s.tasks, InFlight) + InFlight(task)
  {
    TotalUpdate(s.tasks, k, task, InFlight);
    TotalUpdate(s.tasks, k, task, Busy);
  }

  lemma StillServed(s: State, k: nat, task: Task)
    requires SleepersServed(s) && k < |s.tasks| && s.tasks[k].stage != Uncounted
    ensures SleepersServed(s.(tasks := s.tasks[k := task]))
  {
    if s.counter == 0 && !NobodySleeps(s.clients) {
      var j :| 0 <= j < |s.tasks| && s.tasks[j].stage == Uncounted;
      assert s.tasks[k := task][j].stage == Uncounted;
    }
  }

  lemma InFlightChanged(n: nat, s: State, k: nat, task: Task)
    requires Invariant(n, s) && !s.terminated && k < |s.tasks| && s.tasks[k].stage != Counted && task.stage != Counted
    requires PromiseKept(task) && (Busy(task) <= Busy(s.tasks[k]) || Total(s.tasks, Busy) < s.group)
    requires IsInFlight(s.tasks[k]) && IsInFlight(task)
    ensures Invariant(n, s.(tasks := s.tasks[k := task]))
  {
    TaskChanged(n, s, k, task);
    StillServed(s, k, task);
  }

  lemma WorkStep(n: nat, debug: bool, s: State, a: Action)
    requires Invariant(n, s) && Enabled(s, a) && (a.Start? || a.Call? || a.Finish?)
    ensures Invariant(n, Apply(n, debug, s, a))
  {
    InFlightChanged(n, s, a.task, Apply(n, debug, s, a).tasks[a.task]);
  }

  lemma QueueStep(n: nat, s: State, isVoid: bool)
    requires Invariant(n, s) && s.lock == None && s.started
    ensures Invariant(n, WithQueued(s, isVoid))
  {
    var more := Task(isVoid, Queued, false, 0);
    TotalAppend(s.tasks, more, InFlight);
    TotalAppend(s.tasks, more, Busy);
    CounterUp(Total(s.tasks, InFlight));
  }

  lemma NestedStep(n: nat, debug: bool, s: State, a: Action)
    requires Invariant(n, s) && Enabled(s, a) && a.Nested?
    ensures Invariant(n, Apply(n, debug, s, a))
  {
    InFlightChanged(n, s, a.task, s.tasks[a.task].(stage := Running));
    QueueStep(n, ToStage(s, a.task, Running), a.isVoid);
  }

  lemma UncountStep(n: nat, debug: bool, s: State, a: Action)
    requires Invariant(n, s) && Enabled(s, a) && a.Uncount?
    ensures Invariant(n, Apply(n, debug, s, a))
  {
    var t := Apply(n, debug, s, a);
    if !t.terminated {
      TaskChanged(n, s, a.task, t.tasks[a.task]);
      TotalAtLeast(s.tasks, a.task, InFlight);
      CounterDown(Total(s.tasks, InFlight));
      assert t.tasks[a.task].stage == Uncounted;
    }
  }

  lemma NotifyStep(n: nat, debug: bool, s: State, a: Action)
    requires Invariant(n, s) && Enabled(s, a) && a.Notify?
    ensures Invariant(n, Apply(n, debug, s, a))
  {
    var t := Apply(n, debug, s, a);
    TaskChanged(n, s, a.task, t.tasks[a.task]);
    if a.target.Some? {
      Alone(s, a.target.value);
    }
    assert NobodySleeps(t.clients);
  }

  lemma StepInvariant(n: nat, debug: bool, s: State, a: Action)
    requires Invariant(n, s) && Enabled(s, a)
    ensures Invariant(n, Apply(n, debug, s, a))
  {
    match a
    case CountTask(_) => CountStep(n, debug, s, a);
    case Post(_) => PostStep(n, debug, s, a);
    case Start(_) => WorkStep(n, debug, s, a);
    case Call(_) => WorkStep(n, debug, s, a);
    case Nested(_, _) => NestedStep(n, debug, s, a);
    case Finish(_, _) => WorkStep(n, debug, s, a);
    case Uncount(_) => UncountStep(n, debug, s, a);
    case Notify(_, _) => NotifyStep(n, debug, s, a);
    case _ => ClientStep(n, debug, s, a);
  }

  lemma {:induction false} RunInvariant(n: nat, debug: bool, s: State, actions: seq<Action>)
    requires Invariant(n, s) && IsRun(n, debug, s, actions)
    ensures Invariant(n, After(n, debug, s, actions))
    decreases |actions|
  {
    if actions != [] {
      StepInvariant(n, debug, s, actions[0]);
      RunInvariant(n, debug, Apply(n, debug, s, actions[0]), actions[1..]);
    }
  }

  // ----- theorems about every run -----

  /** The counter tells how many tasks are in flight, up to the width of the counter; threads
      were created exactly once if anything was submitted. */
  lemma TaskAccounting(n: nat, debug: bool, clients: nat, actions: seq<Action>)
    requires IsRun(n, debug, Initial(clients), actions)
    ensures var s := After(n, debug, Initial(clients), actions);
            s.counter == Total(s.tasks, InFlight) % 0x1_0000_0000 &&
            (Total(s.tasks, InFlight) < 0x1_0000_0000 ==> s.counter == Total(s.tasks, InFlight)) &&
            (s.tasks != [] ==> s.creations == 1 && s.group == n > 0)
  {
    InitialInvariant(n, clients);
    RunInvariant(n, debug, Initial(clients), actions);
  }

  /** A task that is no longer in flight has had its promise resolved exactly once, unless it is
      a void task that has not thrown. */
  lemma PromisesResolvedOnce(n: nat, debug: bool, clients: nat, actions: seq<Action>, k: nat)
    requires IsRun(n, debug, Initial(clients), actions)
    requires k < |After(n, debug, Initial(clients), actions).tasks|
    ensures var t := After(n, debug, Initial(clients), actions).tasks[k];
            t.resolved <= 1 && (!IsInFlight(t) ==> (t.resolved == 1 <==> !t.isVoid || t.threw))
  {
    InitialInvariant(n, clients);
    RunInvariant(n, debug, Initial(clients), actions);
  }

  /** A client is about to return from wait. */
  ghost predicate WaitReturns(s: State, c: nat) {
    c < |s.clients| && s.clients[c].Checking? && s.counter == 0
  }

  /** With fewer tasks in flight than the counter can count, wait returns only when all tasks have
      run and all promises that are ever resolved have been. */
  lemma WaitMeansDone(n: nat, debug: bool, clients: nat, actions: seq<Action>, c: nat, k: nat)
    requires IsRun(n, debug, Initial(clients), actions)
    requires var s := After(n, debug, Initial(clients), actions);
             Total(s.tasks, InFlight) < 0x1_0000_0000 && k < |s.tasks| &&
             c < |s.clients| && s.clients[c].Checking? && s.counter == 0
    ensures var t := After(n, debug, Initial(clients), actions).tasks[k];
            (t.stage == Uncounted || t.stage == Done) && (!t.isVoid || t.threw ==> t.resolved == 1)
  {
    var s := After(n, debug, Initial(clients), actions);
    TaskAccounting(n, debug, clients, actions);
    TotalAtLeast(s.tasks, k, InFlight);
    PromisesResolvedOnce(n, debug, clients, actions, k);
  }

  // ----- waiting comes to an end -----

  /** A client sleeps, and nothing can happen but that it wakes spuriously. */
  ghost predicate Stuck(s: State) {
    !s.terminated && !NobodySleeps(s.clients) && forall a :: Enabled(s, a) ==> a.WakeSpuriously?
  }

  /** All that is left are tasks that wait to submit other tasks, and tasks that wait for workers
      held up by these. */
  ghost predicate WorkersBlocked(s: State) {
    (forall k :: 0 <= k < |s.tasks| ==>
      s.tasks[k].stage == Queued || s.tasks[k].stage == Calling || s.tasks[k].stage == Done) &&
    ((exists k :: 0 <= k < |s.tasks| && s.tasks[k].stage == Queued) ==> Total(s.tasks, Busy) >= s.group)
  }

  /** What a sleeper has to wait for is a worker, and what workers do. */
  lemma StepOfWorker(s: State, c: nat, k: nat) returns (a: Action)
    requires !s.terminated && c < |s.clients| && s.clients[c].Sleeping? && k < |s.tasks|
    requires var stage := s.tasks[k].stage;
             stage == Running || stage == Settled || stage == Uncounted ||
               (stage == Queued && Total(s.tasks, Busy) < s.group)
    ensures Enabled(s, a) && !a.WakeSpuriously?
  {
    var stage := s.tasks[k].stage;
    a := if stage == Running then Finish(k, false)
         else if stage == Settled then Uncount(k)
         else if stage == Uncounted then Notify(k, Some(c))
         else Start(k);
  }

  /** A wait is stuck exactly if all workers that do something wait to submit a task. */
  lemma StuckExact(n: nat, debug: bool, clients: nat, actions: seq<Action>)
    requires IsRun(n, debug, Initial(clients), actions)
    requires var s := After(n, debug, Initial(clients), actions); !s.terminated && !NobodySleeps(s.clients)
    ensures var s := After(n, debug, Initial(clients), actions); Stuck(s) <==> WorkersBlocked(s)
  {
    var s := After(n, debug, Initial(clients), actions);
    InitialInvariant(n, clients);
    RunInvariant(n, debug, Initial(clients), actions);
    var c: nat :| c < |s.clients| && s.clients[c].Sleeping?;
    Alone(s, c);
    if Stuck(s) {
      StuckBlocks(n, s, c);
    }
    if WorkersBlocked(s) {
      BlockedStuck(n, s, c);
    }
  }

  /** Whoever sleeps owns the submission mutex, so that nothing is about to be posted. */
  lemma NothingCounted(n: nat, s: State, c: nat)
    requires Invariant(n, s) && c < |s.clients| && s.clients[c].Sleeping?
    ensures forall k :: 0 <= k < |s.tasks| ==> s.tasks[k].stage != Counted
  {
  }

  lemma StuckBlocks(n: nat, s: State, c: nat)
    requires Invariant(n, s) && Stuck(s) && c < |s.clients| && s.clients[c].Sleeping?
    ensures WorkersBlocked(s)
  {
    NothingCounted(n, s, c);
    forall k | 0 <= k < |s.tasks|
      ensures s.tasks[k].stage == Queued || s.tasks[k].stage == Calling || s.tasks[k].stage == Done
      ensures s.tasks[k].stage == Queued ==> Total(s.tasks, Busy) >= s.group
    {
      var stage := s.tasks[k].stage;
      if stage == Running || stage == Settled || stage == Uncounted ||
        (stage == Queued && Total(s.tasks, Busy) < s.group) {
        var a := StepOfWorker(s, c, k);
      }
    }
  }

  lemma BlockedStuck(n: nat, s: State, c: nat)
    requires Invariant(n, s) && !s.terminated && WorkersBlocked(s) && c < |s.clients| && s.clients[c].Sleeping?
    ensures Stuck(s)
  {
    Alone(s, c);
  }

  /** Tasks that do not submit tasks. */
  predicate NoCalls(actions: seq<Action>) { forall k :: 0 <= k < |actions| ==> !actions[k].Call? }

  ghost predicate NobodyCalls(s: State) { forall k :: 0 <= k < |s.tasks| ==> s.tasks[k].stage != Calling }

  lemma {:induction false} NobodyCallsAfter(n: nat, debug: bool, s: State, actions: seq<Action>)
    requires NobodyCalls(s) && IsRun(n, debug, s, actions) && NoCalls(actions)
    ensures NobodyCalls(After(n, debug, s, actions))
    decreases |actions|
  {
    if actions != [] {
      assert !actions[0].Call?;
      NobodyCallsAfter(n, debug, Apply(n, debug, s, actions[0]), actions[1..]);
    }
  }

  lemma {:induction false} AllDone(tasks: seq<Task>)
    requires forall k :: 0 <= k < |tasks| ==> tasks[k].stage == Queued || tasks[k].stage == Done
    ensures Total(tasks, Busy) == 0
    ensures Total(tasks, InFlight) > 0 ==> exists k :: 0 <= k < |tasks| && tasks[k].stage == Queued
  {
    if tasks != [] {
      AllDone(tasks[1..]);
      if Total(tasks, InFlight) > 0 && tasks[0].stage != Queued {
        var k :| 0 <= k < |tasks| - 1 && tasks[1..][k].stage == Queued;
        assert tasks[k + 1].stage == Queued;
      }
    }
  }

  /** Without nested submission no wait is ever stuck. */
  lemma NeverStuck(n: nat, debug: bool, clients: nat, actions: seq<Action>)
    requires IsRun(n, debug, Initial(clients), actions) && NoCalls(actions)
    ensures !Stuck(After(n, debug, Initial(clients), actions))
  {
    var s := After(n, debug, Initial(clients), actions);
    InitialInvariant(n, clients);
    RunInvariant(n, debug, Initial(clients), actions);
    NobodyCallsAfter(n, debug, Initial(clients), actions);
    if !s.terminated && !NobodySleeps(s.clients) {
      StuckExact(n, debug, clients, actions);
      if WorkersBlocked(s) {
        AllDone(s.tasks);
      }
    }
  }

  ghost predicate LeadsToStuck(n: nat, debug: bool, clients: nat, actions: seq<Action>) {
    IsRun(n, debug, Initial(clients), actions) && Stuck(After(n, debug, Initial(clients), actions))
  }

  /** A wait can get stuck exactly if tasks may submit tasks: a task that does so while a client
      waits blocks on the mutex that the client holds. */
  lemma NestingDecides(n: nat, debug: bool, nestingAllowed: bool)
    requires n > 0
    ensures (exists clients, actions ::
               LeadsToStuck(n, debug, clients, actions) && (nestingAllowed || NoCalls(actions)))
            <==> nestingAllowed
  {
    if nestingAllowed {
      var run := NestedDeadlock(n, debug);
      assert LeadsToStuck(n, debug, 1, run);
    } else {
      forall clients, actions | LeadsToStuck(n, debug, clients, actions) ensures !NoCalls(actions) {
        if NoCalls(actions) {
          NeverStuck(n, debug, clients, actions);
        }
      }
    }
  }

  /** The steps of workers come to an end: each leaves less to do, except that a task submits
      another one. */
  lemma WorkShrinks(n: nat, debug: bool, s: State, a: Action)
    requires Enabled(s, a) && !IsClientAction(a) && !a.Nested?
    ensures var t := Apply(n, debug, s, a);
            t.terminated || Total(t.tasks, StepsLeft) < Total(s.tasks, StepsLeft)
  {
    var t := Apply(n, debug, s, a);
    if !t.terminated {
      TotalUpdate(s.tasks, a.task, t.tasks[a.task], StepsLeft);
    }
  }

  /** While a client sleeps nothing is submitted, by clients or by tasks. */
  lemma NothingSubmittedMeanwhile(n: nat, debug: bool, clients: nat, actions: seq<Action>, a: Action)
    requires IsRun(n, debug, Initial(clients), actions)
    requires var s := After(n, debug, Initial(clients), actions); !NobodySleeps(s.clients) && Enabled(s, a)
    ensures !a.Nested? && (IsClientAction(a) ==> a.WakeSpuriously?)
  {
    var s := After(n, debug, Initial(clients), actions);
    InitialInvariant(n, clients);
    RunInvariant(n, debug, Initial(clients), actions);
    var c :| 0 <= c < |s.clients| && s.clients[c].Sleeping?;
    Alone(s, c);
  }

  // ----- runs made up of parts -----

  lemma RunStarts(n: nat, debug: bool, s: State, a: Action, rest: seq<Action>)
    requires Enabled(s, a) && IsRun(n, debug, Apply(n, debug, s, a), rest)
    ensures IsRun(n, debug, s, [a] + rest)
    ensures After(n, debug, s, [a] + rest) == After(n, debug, Apply(n, debug, s, a), rest)
  {
    assert ([a] + rest)[1..] == rest;
  }

  /** The state behind the action with which two runs start. */
  lemma SameStart(n: nat, debug: bool, s: State, a: seq<Action>, b: seq<Action>) returns (t: State)
    requires a != [] && b != [] && b[0] == a[0] && IsRun(n, debug, s, a)
    ensures IsRun(n, debug, t, a[1..]) && After(n, debug, s, a) == After(n, debug, t, a[1..])
    ensures IsRun(n, debug, t, b[1..]) ==>
            IsRun(n, debug, s, b) && After(n, debug, s, b) == After(n, debug, t, b[1..])
  {
    t := Apply(n, debug, s, a[0]);
  }

  lemma {:induction false} RunsCompose(n: nat, debug: bool, s: State, a: seq<Action>, b: seq<Action>)
    requires IsRun(n, debug, s, a) && IsRun(n, debug, After(n, debug, s, a), b)
    ensures IsRun(n, debug, s, a + b) && After(n, debug, s, a + b) == After(n, debug, After(n, debug, s, a), b)
  {
    RunContinues(n, debug, s, a, b, a + b);
  }

  lemma Behind(a: seq<Action>, b: seq<Action>, c: seq<Action>)
    requires c == a + b && a != []
    ensures c != [] && c[0] == a[0] && c[1..] == a[1..] + b
  {
  }

  lemma {:induction false} RunContinues(n: nat, debug: bool, s: State, a: seq<Action>, b: seq<Action>, c: seq<Action>)
    requires c == a + b && IsRun(n, debug, s, a) && IsRun(n, debug, After(n, debug, s, a), b)
    ensures IsRun(n, debug, s, c) && After(n, debug, s, c) == After(n, debug, After(n, debug, s, a), b)
    decreases |a|
  {
    if a == [] {
      assert c == b;
    } else {
      Behind(a, b, c);
      var t := SameStart(n, debug, s, a, c);
      RunContinues(n, debug, t, a[1..], b, c[1..]);
    }
  }

  /** A run of three actions. */
  lemma ThreeSteps(n: nat, debug: bool, s: State, a: Action, b: Action, c: Action)
    requires Enabled(s, a) && Enabled(Apply(n, debug, s, a), b)
    requires Enabled(Apply(n, debug, Apply(n, debug, s, a), b), c)
    ensures IsRun(n, debug, s, [a, b, c])
    ensures After(n, debug, s, [a, b, c]) == Apply(n, debug, Apply(n, debug, Apply(n, debug, s, a), b), c)
  {
    var s1 := Apply(n, debug, s, a);
    var s2 := Apply(n, debug, s1, b);
    RunStarts(n, debug, s2, c, []);
    RunStarts(n, debug, s1, b, [c] + []);
    RunStarts(n, debug, s, a, [b] + ([c] + []));
    assert [a, b, c] == [a] + ([b] + ([c] + []));
  }

  /** One client, outside, has submitted `m` tasks that are all queued. */
  ghost predicate AllQueued(s: State, m: nat) {
    s.clients == [Outside] && s.lock == None && s.started && !s.terminated && |s.tasks| == m &&
    forall k :: 0 <= k < m ==> s.tasks[k].stage == Queued
  }

  lemma SubmitOne(n: nat, debug: bool, s: State, m: nat)
    requires AllQueued(s, m)
    ensures var run := [BeginSubmit(0, true), CountTask(0), Post(0)];
            IsRun(n, debug, s, run) && AllQueued(After(n, debug, s, run), m + 1)
  {
    ThreeSteps(n, debug, s, BeginSubmit(0, true), CountTask(0), Post(0));
  }

  lemma FirstSubmit(n: nat, debug: bool)
    requires n > 0
    ensures var run := [BeginSubmit(0, true)] + [StartThreads(0), CountTask(0), Post(0)];
            IsRun(n, debug, Initial(1), run) && AllQueued(After(n, debug, Initial(1), run), 1)
  {
    var s1 := Apply(n, debug, Initial(1), BeginSubmit(0, true));
    ThreeSteps(n, debug, s1, StartThreads(0), CountTask(0), Post(0));
    RunStarts(n, debug, Initial(1), BeginSubmit(0, true), [StartThreads(0), CountTask(0), Post(0)]);
  }

  lemma {:induction false} SubmitMany(n: nat, debug: bool, m: nat) returns (run: seq<Action>)
    requires n > 0 && m > 0
    ensures IsRun(n, debug, Initial(1), run) && AllQueued(After(n, debug, Initial(1), run), m)
    decreases m
  {
    if m == 1 {
      FirstSubmit(n, debug);
      run := [BeginSubmit(0, true)] + [StartThreads(0), CountTask(0), Post(0)];
    } else {
      var before := SubmitMany(n, debug, m - 1);
      SubmitOne(n, debug, After(n, debug, Initial(1), before), m - 1);
      RunsCompose(n, debug, Initial(1), before, [BeginSubmit(0, true), CountTask(0), Post(0)]);
      run := before + [BeginSubmit(0, true), CountTask(0), Post(0)];
    }
  }

  lemma {:induction false} QueuedInFlight(tasks: seq<Task>)
    requires forall k :: 0 <= k < |tasks| ==> tasks[k].stage == Queued
    ensures Total(tasks, InFlight) == |tasks| && Total(tasks, Busy) == 0
  {
    if tasks != [] {
      QueuedInFlight(tasks[1..]);
    }
  }

  /** A single task is submitted and started, and wants to submit another one. */
  lemma OneCalls(n: nat, debug: bool) returns (run: seq<Action>)
    requires n > 0
    ensures IsRun(n, debug, Initial(1), run)
    ensures var s := After(n, debug, Initial(1), run);
            s.clients == [Outside] && s.lock == None && !s.terminated && |s.tasks| == 1 && s.tasks[0].stage == Calling
  {
    var submit := SubmitMany(n, debug, 1);
    var s := After(n, debug, Initial(1), submit);
    QueuedInFlight(s.tasks);
    TaskAccounting(n, debug, 1, submit);
    var s1 := Apply(n, debug, s, Start(0));
    RunStarts(n, debug, s1, Call(0), []);
    RunStarts(n, debug, s, Start(0), [Call(0)] + []);
    RunsCompose(n, debug, Initial(1), submit, [Start(0)] + ([Call(0)] + []));
    run := submit + ([Start(0)] + ([Call(0)] + []));
  }

  /** Then the client waits: neither ever gets any further. */
  lemma NestedDeadlock(n: nat, debug: bool) returns (run: seq<Action>)
    requires n > 0
    ensures LeadsToStuck(n, debug, 1, run)
  {
    var before := OneCalls(n, debug);
    var s := After(n, debug, Initial(1), before);
    TaskAccounting(n, debug, 1, before);
    assert Total(s.tasks, InFlight) == 1 by { assert s.tasks[1..] == []; }
    var s1 := Apply(n, debug, s, BeginWait(0));
    RunStarts(n, debug, s1, Check(0), []);
    RunStarts(n, debug, s, BeginWait(0), [Check(0)] + []);
    RunsCompose(n, debug, Initial(1), before, [BeginWait(0)] + ([Check(0)] + []));
    run := before + ([BeginWait(0)] + ([Check(0)] + []));
    var t := After(n, debug, Initial(1), run);
    assert t.clients[0].Sleeping?;
    StuckExact(n, debug, 1, run);
  }

  // ----- which waits can end -----

  ghost predicate InWait(s: State, c: nat) {
    c < |s.clients| && (s.clients[c].Checking? || s.clients[c].Sleeping?)
  }

  /** A task wants to submit another one while a client is in wait. */
  ghost predicate HeldUp(n: nat, s: State, c: nat, k: nat) {
    Invariant(n, s) && !s.terminated && InWait(s, c) && k < |s.tasks| && s.tasks[k].stage == Calling &&
    Total(s.tasks, InFlight) < MODULUS
  }

  lemma CounterPositive(n: nat, s: State, k: nat)
    requires Invariant(n, s) && Total(s.tasks, InFlight) < MODULUS && k < |s.tasks| && IsInFlight(s.tasks[k])
    ensures s.counter > 0
  {
    TotalAtLeast(s.tasks, k, InFlight);
  }

  /** What workers do puts no task into flight. */
  lemma InFlightShrinks(n: nat, debug: bool, s: State, a: Action)
    requires Enabled(s, a) && !IsClientAction(a) && !a.Nested?
    ensures Total(Apply(n, debug, s, a).tasks, InFlight) <= Total(s.tasks, InFlight)
  {
    TotalUpdate(s.tasks, a.task, Apply(n, debug, s, a).tasks[a.task], InFlight);
    assert s.tasks[a.task := s.tasks[a.task]] == s.tasks;
  }

  lemma HeldUpStep(n: nat, debug: bool, s: State, a: Action, c: nat, k: nat)
    requires HeldUp(n, s, c, k) && Enabled(s, a)
    ensures HeldUp(n, Apply(n, debug, s, a), c, k)
  {
    StepInvariant(n, debug, s, a);
    Alone(s, c);
    CounterPositive(n, s, k);
    if !IsClientAction(a) {
      InFlightShrinks(n, debug, s, a);
    }
  }

  /** Neither the task nor the client ever gets any further. */
  lemma {:induction false} HeldUpForever(n: nat, debug: bool, s: State, more: seq<Action>, c: nat, k: nat)
    requires HeldUp(n, s, c, k) && IsRun(n, debug, s, more)
    ensures HeldUp(n, After(n, debug, s, more), c, k)
    ensures var t := After(n, debug, s, more);
            c < |t.clients| && (t.clients[c].Checking? || t.clients[c].Sleeping?) &&
            k < |t.tasks| && t.tasks[k].stage == Calling
    decreases |more|
  {
    if more != [] {
      HeldUpStep(n, debug, s, more[0], c, k);
      HeldUpForever(n, debug, Apply(n, debug, s, more[0]), more[1..], c, k);
    }
  }

  /** A client in wait, whose tasks submit no tasks. */
  ghost predicate MayEnd(n: nat, s: State, c: nat) {
    Invariant(n, s) && !s.terminated && InWait(s, c) && NobodyCalls(s) && Total(s.tasks, InFlight) < MODULUS
  }

  /** A step of a worker that does something. */
  lemma StepOfBusy(s: State, c: nat, k: nat) returns (a: Action)
    requires MutexHeld(s) && !s.terminated && InWait(s, c) && NobodyCalls(s) && k < |s.tasks| && IsBusy(s.tasks[k])
    ensures Enabled(s, a) && !IsClientAction(a) && !a.Nested? && !a.Call?
  {
    Alone(s, c);
    var stage := s.tasks[k].stage;
    a := if stage == Running then Finish(k, false)
         else if stage == Settled then Uncount(k)
         else Notify(k, if s.clients[c].Sleeping? then Some(c) else None);
  }

  /** While a task is in flight, some worker can take a step. */
  lemma NextStep(n: nat, s: State, c: nat) returns (a: Action)
    requires MayEnd(n, s, c) && s.counter > 0
    ensures Enabled(s, a) && !IsClientAction(a) && !a.Nested? && !a.Call?
  {
    var k := TotalPositive(s.tasks, InFlight);
    if s.tasks[k].stage == Queued {
      if Total(s.tasks, Busy) < s.group {
        a := Start(k);
      } else {
        k := TotalPositive(s.tasks, Busy);
        a := StepOfBusy(s, c, k);
      }
    } else {
      assert s.lock == Some(c);
      a := StepOfBusy(s, c, k);
    }
  }

  lemma MayEndStep(n: nat, debug: bool, s: State, a: Action, c: nat)
    requires MayEnd(n, s, c) && s.counter > 0 && Enabled(s, a) && !IsClientAction(a) && !a.Nested? && !a.Call?
    ensures var t := Apply(n, debug, s, a); MayEnd(n, t, c) && Total(t.tasks, StepsLeft) < Total(s.tasks, StepsLeft)
  {
    StepInvariant(n, debug, s, a);
    Alone(s, c);
    InFlightShrinks(n, debug, s, a);
    WorkShrinks(n, debug, s, a);
  }

  /** Once the counter is 0, the client wakes up if need be and returns. */
  lemma ReturnsAtOnce(n: nat, debug: bool, s: State, c: nat) returns (more: seq<Action>)
    requires !s.terminated && InWait(s, c) && s.counter == 0
    ensures IsRun(n, debug, s, more) && c < |After(n, debug, s, more).clients|
    ensures After(n, debug, s, more).clients[c].Outside?
  {
    if s.clients[c].Checking? {
      RunStarts(n, debug, s, Check(c), []);
      more := [Check(c)] + [];
    } else {
      var t := Apply(n, debug, s, WakeSpuriously(c));
      RunStarts(n, debug, t, Check(c), []);
      RunStarts(n, debug, s, WakeSpuriously(c), [Check(c)] + []);
      more := [WakeSpuriously(c)] + ([Check(c)] + []);
    }
  }

  /** If no task waits to submit another one, the workers can finish what there is. */
  lemma {:induction false} WaitCanEnd(n: nat, debug: bool, s: State, c: nat) returns (more: seq<Action>)
    requires MayEnd(n, s, c)
    ensures IsRun(n, debug, s, more) && c < |After(n, debug, s, more).clients|
    ensures After(n, debug, s, more).clients[c].Outside?
    decreases Total(s.tasks, StepsLeft)
  {
    if s.counter == 0 {
      more := ReturnsAtOnce(n, debug, s, c);
    } else {
      var a := NextStep(n, s, c);
      var t := Apply(n, debug, s, a);
      MayEndStep(n, debug, s, a, c);
      var rest := WaitCanEnd(n, debug, t, c);
      RunStarts(n, debug, s, a, rest);
      more := [a] + rest;
    }
  }

  ghost predicate ReturnsLater(n: nat, debug: bool, s: State, c: nat, more: seq<Action>) {
    IsRun(n, debug, s, more) &&
    var t := After(n, debug, s, more); c < |t.clients| && t.clients[c].Outside?
  }

  /** A client in wait can ever return if and only if no task is waiting to submit another one. */
  lemma WaitEndsExact(n: nat, debug: bool, clients: nat, actions: seq<Action>, c: nat)
    requires IsRun(n, debug, Initial(clients), actions)
    requires var s := After(n, debug, Initial(clients), actions);
             !s.terminated && Total(s.tasks, InFlight) < 0x1_0000_0000 &&
             c < |s.clients| && (s.clients[c].Checking? || s.clients[c].Sleeping?)
    ensures var s := After(n, debug, Initial(clients), actions);
            (exists more :: ReturnsLater(n, debug, s, c, more)) <==>
            forall k :: 0 <= k < |s.tasks| ==> s.tasks[k].stage != Calling
  {
    var s := After(n, debug, Initial(clients), actions);
    InitialInvariant(n, clients);
    RunInvariant(n, debug, Initial(clients), actions);
    if NobodyCalls(s) {
      var more := WaitCanEnd(n, debug, s, c);
      assert ReturnsLater(n, debug, s, c, more);
    } else {
      var k :| 0 <= k < |s.tasks| && s.tasks[k].stage == Calling;
      forall more ensures !ReturnsLater(n, debug, s, c, more) {
        if IsRun(n, debug, s, more) {
          HeldUpForever(n, debug, s, more, c, k);
        }
      }
    }
  }

  // ----- a counter that wraps around -----

  /** At no time during the run more than `bound` tasks are in flight. */
  ghost predicate Within(n: nat, debug: bool, s: State, actions: seq<Action>, bound: nat)
    requires IsRun(n, debug, s, actions)
    decreases |actions|
  {
    Total(s.tasks, InFlight) <= bound &&
    (actions != [] ==> Within(n, debug, Apply(n, debug, s, actions[0]), actions[1..], bound))
  }

  lemma {:induction false} WithinAfter(n: nat, debug: bool, s: State, actions: seq<Action>, bound: nat)
    requires IsRun(n, debug, s, actions) && Within(n, debug, s, actions, bound)
    ensures Total(After(n, debug, s, actions).tasks, InFlight) <= bound
    decreases |actions|
  {
    if actions != [] {
      WithinAfter(n, debug, Apply(n, debug, s, actions[0]), actions[1..], bound);
    }
  }

  lemma {:induction false} TasksStay(n: nat, debug: bool, s: State, actions: seq<Action>)
    requires IsRun(n, debug, s, actions)
    ensures |After(n, debug, s, actions).tasks| >= |s.tasks|
    decreases |actions|
  {
    if actions != [] {
      TasksStay(n, debug, Apply(n, debug, s, actions[0]), actions[1..]);
    }
  }

  /** There are never more tasks in flight than are submitted in all. */
  lemma {:induction false} WithinTasks(n: nat, debug: bool, s: State, actions: seq<Action>, bound: nat)
    requires IsRun(n, debug, s, actions) && |After(n, debug, s, actions).tasks| <= bound
    ensures Within(n, debug, s, actions, bound)
    decreases |actions|
  {
    TasksStay(n, debug, s, actions);
    InFlightAtMost(s.tasks);
    if actions != [] {
      WithinTasks(n, debug, Apply(n, debug, s, actions[0]), actions[1..], bound);
    }
  }

  lemma {:induction false} WithinMore(n: nat, debug: bool, s: State, actions: seq<Action>, bound: nat, more: nat)
    requires IsRun(n, debug, s, actions) && Within(n, debug, s, actions, bound) && bound <= more
    ensures Within(n, debug, s, actions, more)
    decreases |actions|
  {
    if actions != [] {
      WithinMore(n, debug, Apply(n, debug, s, actions[0]), actions[1..], bound, more);
    }
  }

  /** `m` tasks are submitted, and all are queued. */
  lemma ManyInFlight(n: nat, debug: bool, m: nat) returns (run: seq<Action>)
    requires n > 0 && m > 0
    ensures IsRun(n, debug, Initial(1), run)
    ensures var s := After(n, debug, Initial(1), run);
            AllQueued(s, m) && Total(s.tasks, InFlight) == m && Total(s.tasks, Busy) == 0 && s.group == n &&
            s.counter == m % MODULUS
  {
    run := SubmitMany(n, debug, m);
    QueuedInFlight(After(n, debug, Initial(1), run).tasks);
    TaskAccounting(n, debug, 1, run);
  }

  // ----- when wait returns too early -----

  /** A run with at most `bound` tasks in flight, at the end of which wait returns although tasks
      are in flight. */
  ghost predicate ReturnsEarly(n: nat, debug: bool, clients: nat, actions: seq<Action>, c: nat, bound: nat) {
    IsRun(n, debug, Initial(clients), actions) && Within(n, debug, Initial(clients), actions, bound) &&
    var s := After(n, debug, Initial(clients), actions);
    WaitReturns(s, c) && Total(s.tasks, InFlight) > 0
  }

  lemma EarlyReturn(n: nat, debug: bool, bound: nat) returns (run: seq<Action>)
    requires n > 0 && bound >= MODULUS
    ensures ReturnsEarly(n, debug, 1, run, 0, bound)
  {
    var submit := ManyInFlight(n, debug, MODULUS);
    var s := After(n, debug, Initial(1), submit);
    RunStarts(n, debug, s, BeginWait(0), []);
    RunsCompose(n, debug, Initial(1), submit, [BeginWait(0)] + []);
    run := submit + ([BeginWait(0)] + []);
    WithinTasks(n, debug, Initial(1), run, MODULUS);
    WithinMore(n, debug, Initial(1), run, MODULUS, bound);
  }

  /** wait can return too early exactly when more tasks may be in flight than the counter can
      count. */
  lemma WaitExact(n: nat, debug: bool, bound: nat)
    requires n > 0
    ensures (exists clients, actions, c :: ReturnsEarly(n, debug, clients, actions, c, bound)) <==>
            bound >= 0x1_0000_0000
  {
    if bound >= MODULUS {
      var run := EarlyReturn(n, debug, bound);
      assert ReturnsEarly(n, debug, 1, run, 0, bound);
    } else {
      forall clients, actions, c | ReturnsEarly(n, debug, clients, actions, c, bound) ensures false {
        TaskAccounting(n, debug, clients, actions);
        WithinAfter(n, debug, Initial(clients), actions, bound);
      }
    }
  }

  // ----- when the check of the counter terminates the program -----

  lemma {:induction false} NeverTerminatedFrom(n: nat, debug: bool, s: State, actions: seq<Action>)
    requires Invariant(n, s) && !s.terminated && IsRun(n, debug, s, actions)
    requires debug ==> Within(n, debug, s, actions, MODULUS - 1)
    ensures !After(n, debug, s, actions).terminated
    decreases |actions|
  {
    if actions != [] {
      var a := actions[0];
      StepInvariant(n, debug, s, a);
      if a.Uncount? {
        TotalAtLeast(s.tasks, a.task, InFlight);
      }
      NeverTerminatedFrom(n, debug, Apply(n, debug, s, a), actions[1..]);
    }
  }

  /** With fewer tasks in flight than the counter can count, it is never decremented when it is
      0. */
  lemma NeverTerminated(n: nat, debug: bool, clients: nat, actions: seq<Action>)
    requires IsRun(n, debug, Initial(clients), actions)
    requires debug ==> Within(n, debug, Initial(clients), actions, 0xFFFF_FFFF)
    ensures !After(n, debug, Initial(clients), actions).terminated
  {
    InitialInvariant(n, clients);
    NeverTerminatedFrom(n, debug, Initial(clients), actions);
  }

  ghost predicate Terminates(n: nat, debug: bool, clients: nat, actions: seq<Action>, bound: nat) {
    IsRun(n, debug, Initial(clients), actions) && Within(n, debug, Initial(clients), actions, bound) &&
    After(n, debug, Initial(clients), actions).terminated
  }

  /** With as many tasks in flight as the counter wraps around at, the first one that ends
      terminates the program. */
  lemma FirstEndTerminates(n: nat, bound: nat) returns (run: seq<Action>)
    requires n > 0 && bound >= MODULUS
    ensures Terminates(n, true, 1, run, bound)
  {
    var submit := ManyInFlight(n, true, MODULUS);
    var s := After(n, true, Initial(1), submit);
    ThreeSteps(n, true, s, Start(0), Finish(0, false), Uncount(0));
    RunsCompose(n, true, Initial(1), submit, [Start(0), Finish(0, false), Uncount(0)]);
    run := submit + [Start(0), Finish(0, false), Uncount(0)];
    WithinTasks(n, true, Initial(1), run, MODULUS);
    WithinMore(n, true, Initial(1), run, MODULUS, bound);
  }

  /** The branch for a counter that is already 0 can be reached exactly in debug mode with more
      tasks in flight than the counter can count. */
  lemma TerminationExact(n: nat, debug: bool, bound: nat)
    requires n > 0
    ensures (exists clients, actions :: Terminates(n, debug, clients, actions, bound)) <==>
            debug && bound >= 0x1_0000_0000
  {
    if debug && bound >= MODULUS {
      var run := FirstEndTerminates(n, bound);
      assert Terminates(n, debug, 1, run, bound);
    } else {
      forall clients, actions | Terminates(n, debug, clients, actions, bound) ensures false {
        if debug {
          WithinMore(n, debug, Initial(clients), actions, bound, MODULUS - 1);
        }
        NeverTerminated(n, debug, clients, actions);
      }
    }
  }

  // ----- the shared variables -----

  datatype StartError = NoThreads | GroupNotEmpty

  /** The variables that clients and workers share, with the critical sections as methods. Each
      section is tied to the action it implements. */
  class GThreadPool {
    const nThreads: nat
    var threadsStarted: bool
    var group: nat
    var tasksInFlight: nat

    constructor (nThreads: nat, ghost clients: nat)
      ensures this.nThreads == nThreads && Represents(Initial(clients))
    {
      this.nThreads := nThreads;
      threadsStarted, group, tasksInFlight := false, 0, 0;
    }

    /** The variables are those of a state of the system. */
    ghost predicate Represents(s: State)
      reads this
    {
      threadsStarted == s.started && group == s.group && tasksInFlight == s.counter
    }

    /** The start of the threads, with the submission mutex held. */
    method StartThreadsSection(ghost s: State, ghost a: Action) returns (error: Option<StartError>)
      requires a.StartThreads? && Enabled(s, a) && Represents(s)
      modifies this`threadsStarted, this`group
      ensures Represents(Apply(nThreads, false, s, a))
      ensures error == None <==> Apply(nThreads, false, s, a).clients[a.client] == s.clients[a.client]
      ensures error == Some(NoThreads) <==> nThreads == 0
      ensures error == Some(GroupNotEmpty) <==> nThreads > 0 && old(group) > 0
      ensures if error == None then threadsStarted && group == nThreads
              else threadsStarted == old(threadsStarted) && group == old(group)
    {
      if nThreads == 0 { return Some(NoThreads); }
      if group > 0 { return Some(GroupNotEmpty); }
      group := nThreads;
      threadsStarted := true;
      return None;
    }

    /** The increment, with the counter mutex held, for a client or for a task that submits. */
    method CountSection(ghost s: State, ghost a: Action)
      requires (a.CountTask? || a.Nested?) && Enabled(s, a) && Represents(s)
      modifies this`tasksInFlight
      ensures Represents(Apply(nThreads, false, s, a))
      ensures tasksInFlight == (old(tasksInFlight) + 1) % 0x1_0000_0000
    {
      tasksInFlight := (tasksInFlight + 1) % MODULUS;
    }

    /** The decrement, with the counter mutex held; in debug mode a counter of 0 terminates the
        program. */
    method UncountSection(debug: bool, ghost s: State, ghost a: Action) returns (terminated: bool)
      requires a.Uncount? && Enabled(s, a) && Represents(s) && tasksInFlight < MODULUS
      modifies this`tasksInFlight
      ensures Represents(Apply(nThreads, debug, s, a)) && terminated == Apply(nThreads, debug, s, a).terminated
      ensures terminated <==> debug && old(tasksInFlight) == 0
      ensures !terminated ==>
        tasksInFlight == if old(tasksInFlight) == 0 then 0xFFFF_FFFF else old(tasksInFlight) - 1
    {
      if debug && tasksInFlight == 0 { return true; }
      tasksInFlight := if tasksInFlight == 0 then MODULUS - 1 else tasksInFlight - 1;
      return false;
    }

    /** The predicate that wait evaluates with the counter mutex held. */
    method CheckSection(ghost s: State, ghost a: Action) returns (returns_: bool)
      requires a.Check? && Enabled(s, a) && Represents(s)
      ensures Represents(Apply(nThreads, false, s, a))
      ensures returns_ <==> Apply(nThreads, false, s, a).clients[a.client].Outside?
      ensures returns_ <==> tasksInFlight == 0
    {
      returns_ := tasksInFlight == 0;
    }
  }

  /** The critical sections, entered in the order of any run, keep the variables those of the
      system. */
  method Perform(pool: GThreadPool, debug: bool, ghost clients: nat, actions: seq<Action>)
    requires pool.Represents(Initial(clients)) && IsRun(pool.nThreads, debug, Initial(clients), actions)
    modifies pool
    ensures pool.Represents(After(pool.nThreads, debug, Initial(clients), actions))
  {
    ghost var s := Initial(clients);
    InitialInvariant(pool.nThreads, clients);
    for i := 0 to |actions|
      invariant pool.Represents(s) && Invariant(pool.nThreads, s)
      invariant IsRun(pool.nThreads, debug, s, actions[i..])
      invariant After(pool.nThreads, debug, s, actions[i..]) == After(pool.nThreads, debug, Initial(clients), actions)
    {
      var a := actions[i];
      assert actions[i..][0] == a && actions[i..][1..] == actions[i + 1..];
      match a {
        case StartThreads(_) => var error := pool.StartThreadsSection(s, a);
        case CountTask(_) => pool.CountSection(s, a);
        case Nested(_, _) => pool.CountSection(s, a);
        case Uncount(_) => var terminated := pool.UncountSection(debug, s, a);
        case Check(_) => var returns_ := pool.CheckSection(s, a);
        case _ =>
      }
      StepInvariant(pool.nThreads, debug, s, a);
      s := Apply(pool.nThreads, debug, s, a);
    }
  }
}
