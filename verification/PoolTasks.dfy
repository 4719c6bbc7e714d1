/** What becomes of a single task, said of the actions of a run. */
module PoolTasks {
  import opened ThreadPool
  import opened Wrappers

  // ----- the end of a run -----

  lemma {:induction false} LastStep(n: nat, debug: bool, s: State, actions: seq<Action>)
    requires actions != [] && IsRun(n, debug, s, actions)
    ensures var front, last := actions[..|actions| - 1], actions[|actions| - 1];
            IsRun(n, debug, s, front) && Enabled(After(n, debug, s, front), last) &&
            After(n, debug, s, actions) == Apply(n, debug, After(n, debug, s, front), last)
    decreases |actions|
  {
    var front, last := actions[..|actions| - 1], actions[|actions| - 1];
    if |actions| > 1 {
      var rest := actions[1..];
      LastStep(n, debug, Apply(n, debug, s, actions[0]), rest);
      assert rest[..|rest| - 1] == front[1..] && rest[|rest| - 1] == last;
    }
  }

  // ----- submissions -----

  /** Whether the last task that a client began to submit is void. */
  function LastBegun(actions: seq<Action>): bool {
    if actions == [] then false
    else
      var last := actions[|actions| - 1];
      if last.BeginSubmit? then last.isVoid else LastBegun(actions[..|actions| - 1])
  }

  /** The tasks that were submitted, by clients and by other tasks: which of them are void. */
  function Submitted(actions: seq<Action>): seq<bool> {
    if actions == [] then []
    else
      var front, last := actions[..|actions| - 1], actions[|actions| - 1];
      Submitted(front) +
      if last.CountTask? then [LastBegun(front)] else if last.Nested? then [last.isVoid] else []
  }

  ghost predicate AsBegun(s: State, kind: bool) {
    forall c :: 0 <= c < |s.clients| && s.clients[c].Submitting? ==> s.clients[c].isVoid == kind
  }

  ghost predicate OfKinds(tasks: seq<Task>, kinds: seq<bool>) {
    |tasks| == |kinds| && forall k :: 0 <= k < |tasks| ==> tasks[k].isVoid == kinds[k]
  }

  ghost predicate AsSubmitted(s: State, actions: seq<Action>) {
    OfKinds(s.tasks, Submitted(actions)) && AsBegun(s, LastBegun(actions))
  }

  lemma BegunStep(n: nat, debug: bool, s: State, last: Action, kind: bool)
    requires MutexHeld(s) && AsBegun(s, kind) && Enabled(s, last)
    ensures AsBegun(Apply(n, debug, s, last), if last.BeginSubmit? then last.isVoid else kind)
  {
    if last.BeginSubmit? {
      assert forall c :: 0 <= c < |s.clients| ==> s.clients[c] == Outside;
    }
  }

  /** Steps that submit nothing change no task's kind. */
  lemma KindsKept(n: nat, debug: bool, s: State, a: Action, kinds: seq<bool>)
    requires OfKinds(s.tasks, kinds) && Enabled(s, a) && !a.CountTask? && !a.Nested?
    ensures OfKinds(Apply(n, debug, s, a).tasks, kinds)
  {
  }

  lemma KindAdded(tasks: seq<Task>, kinds: seq<bool>, task: Task)
    requires OfKinds(tasks, kinds)
    ensures OfKinds(tasks + [task], kinds + [task.isVoid])
  {
  }

  lemma KindsStep(n: nat, debug: bool, s: State, last: Action, kinds: seq<bool>, kind: bool)
    requires OfKinds(s.tasks, kinds) && AsBegun(s, kind) && Enabled(s, last)
    ensures OfKinds(Apply(n, debug, s, last).tasks,
                    kinds + if last.CountTask? then [kind] else if last.Nested? then [last.isVoid] else [])
  {
    if last.CountTask? {
      KindAdded(s.tasks, kinds, Task(s.clients[last.client].isVoid, Counted, false, 0));
    } else if last.Nested? {
      KindAdded(ToStage(s, last.task, Running).tasks, kinds, Task(last.isVoid, Queued, false, 0));
    } else {
      KindsKept(n, debug, s, last, kinds);
      assert kinds + [] == kinds;
    }
  }

  lemma SubmittedStep(n: nat, debug: bool, s: State, front: seq<Action>, last: Action)
    requires MutexHeld(s) && AsSubmitted(s, front) && Enabled(s, last)
    ensures AsSubmitted(Apply(n, debug, s, last), front + [last])
  {
    var actions := front + [last];
    assert actions[..|actions| - 1] == front && actions[|actions| - 1] == last;
    BegunStep(n, debug, s, last, LastBegun(front));
    KindsStep(n, debug, s, last, Submitted(front), LastBegun(front));
  }

  /** Every task is of the kind that the client, or the task that submitted it, asked for; and
      there are no other tasks. */
  lemma {:induction false} TasksAsSubmitted(n: nat, debug: bool, clients: nat, actions: seq<Action>)
    requires IsRun(n, debug, Initial(clients), actions)
    ensures AsSubmitted(After(n, debug, Initial(clients), actions), actions)
    decreases |actions|
  {
    if actions != [] {
      var front, last := actions[..|actions| - 1], actions[|actions| - 1];
      LastStep(n, debug, Initial(clients), actions);
      TasksAsSubmitted(n, debug, clients, front);
      InitialInvariant(n, clients);
      RunInvariant(n, debug, Initial(clients), front);
      SubmittedStep(n, debug, After(n, debug, Initial(clients), front), front, last);
      assert front + [last] == actions;
    }
  }

  /** The kinds of the tasks are those of the submissions, in order. */
  lemma KindsLaw(n: nat, debug: bool, clients: nat, actions: seq<Action>)
    requires IsRun(n, debug, Initial(clients), actions)
    ensures var tasks := After(n, debug, Initial(clients), actions).tasks;
            |tasks| == |Submitted(actions)| && forall k :: 0 <= k < |tasks| ==> tasks[k].isVoid == Submitted(actions)[k]
  {
    TasksAsSubmitted(n, debug, clients, actions);
  }

  // ----- execution -----

  /** How often the function of a task has ended. */
  function Ends(actions: seq<Action>, k: nat): nat {
    if actions == [] then 0
    else
      var last := actions[|actions| - 1];
      Ends(actions[..|actions| - 1], k) + if last.Finish? && last.task == k then 1 else 0
  }

  function Throws(actions: seq<Action>, k: nat): nat {
    if actions == [] then 0
    else
      var last := actions[|actions| - 1];
      Throws(actions[..|actions| - 1], k) + if last.Finish? && last.task == k && last.throws then 1 else 0
  }

  /** How often a worker has taken the task. */
  function Starts(actions: seq<Action>, k: nat): nat {
    if actions == [] then 0
    else
      var last := actions[|actions| - 1];
      Starts(actions[..|actions| - 1], k) + if last.Start? && last.task == k then 1 else 0
  }

  /** What a task's state tells about these numbers. */
  ghost predicate Told(t: Task, starts: nat, ends: nat, throws: nat) {
    starts == (if t.stage == Counted || t.stage == Queued then 0 else 1) &&
    ends == (if t.stage == Settled || t.stage == Uncounted || t.stage == Done then 1 else 0) &&
    throws == (if t.threw then 1 else 0) && throws <= ends
  }

  ghost predicate ToldAt(s: State, actions: seq<Action>, k: nat) {
    if k < |s.tasks| then Told(s.tasks[k], Starts(actions, k), Ends(actions, k), Throws(actions, k))
    else Starts(actions, k) == 0 && Ends(actions, k) == 0 && Throws(actions, k) == 0
  }

  lemma Counts3(front: seq<Action>, last: Action, k: nat)
    ensures var actions := front + [last];
            Starts(actions, k) == Starts(front, k) + (if last.Start? && last.task == k then 1 else 0) &&
            Ends(actions, k) == Ends(front, k) + (if last.Finish? && last.task == k then 1 else 0) &&
            Throws(actions, k) == Throws(front, k) + if last.Finish? && last.task == k && last.throws then 1 else 0
  {
    var actions := front + [last];
    assert actions[..|actions| - 1] == front && actions[|actions| - 1] == last;
  }

  /** A task that is posted is waiting to be. */
  lemma PostedWasCounted(n: nat, s: State, a: Action)
    requires Invariant(n, s) && Enabled(s, a) && a.Post?
    ensures s.tasks[s.clients[a.client].task].stage == Counted
  {
  }

  lemma ToldStep(n: nat, debug: bool, s: State, front: seq<Action>, last: Action, k: nat)
    requires Invariant(n, s) && ToldAt(s, front, k) && Enabled(s, last)
    ensures ToldAt(Apply(n, debug, s, last), front + [last], k)
  {
    Counts3(front, last, k);
    if last.Post? { PostedWasCounted(n, s, last); }
  }

  lemma {:induction false} ToldRun(n: nat, debug: bool, clients: nat, actions: seq<Action>, k: nat)
    requires IsRun(n, debug, Initial(clients), actions)
    ensures ToldAt(After(n, debug, Initial(clients), actions), actions, k)
    decreases |actions|
  {
    if actions != [] {
      var front, last := actions[..|actions| - 1], actions[|actions| - 1];
      LastStep(n, debug, Initial(clients), actions);
      ToldRun(n, debug, clients, front, k);
      InitialInvariant(n, clients);
      RunInvariant(n, debug, Initial(clients), front);
      ToldStep(n, debug, After(n, debug, Initial(clients), front), front, last, k);
      assert front + [last] == actions;
    }
  }

  /** A task is taken and run at most once, and exactly once if it is no longer in flight. Its
      promise is resolved with what it returns or throws, but never if it is a void task that
      returns. */
  lemma OnceLaw(n: nat, debug: bool, clients: nat, actions: seq<Action>, k: nat)
    requires IsRun(n, debug, Initial(clients), actions)
    requires k < |After(n, debug, Initial(clients), actions).tasks|
    ensures var t := After(n, debug, Initial(clients), actions).tasks[k];
            Throws(actions, k) <= Ends(actions, k) <= Starts(actions, k) <= 1 &&
            (t.stage == Uncounted || t.stage == Done ==> Ends(actions, k) == 1) &&
            t.resolved == if t.isVoid then Throws(actions, k) else Ends(actions, k)
  {
    ToldRun(n, debug, clients, actions, k);
    InitialInvariant(n, clients);
    RunInvariant(n, debug, Initial(clients), actions);
    assert PromiseKept(After(n, debug, Initial(clients), actions).tasks[k]);
  }

  // ----- the counter -----

  function Ups(actions: seq<Action>): nat {
    if actions == [] then 0
    else
      var last := actions[|actions| - 1];
      Ups(actions[..|actions| - 1]) + if last.CountTask? || last.Nested? then 1 else 0
  }

  function Downs(actions: seq<Action>): nat {
    if actions == [] then 0
    else
      var last := actions[|actions| - 1];
      Downs(actions[..|actions| - 1]) + if last.Uncount? then 1 else 0
  }

  /** How a step changes what the counter stands for. */
  function Change(a: Action): int { if a.CountTask? || a.Nested? then 1 else if a.Uncount? then -1 else 0 }

  lemma ChangeCounted(front: seq<Action>, last: Action)
    ensures Ups(front + [last]) - Downs(front + [last]) == Ups(front) - Downs(front) + Change(last)
  {
    var actions := front + [last];
    assert actions[..|actions| - 1] == front && actions[|actions| - 1] == last;
  }

  lemma CounterStep(n: nat, debug: bool, s: State, a: Action, x: int)
    requires Enabled(s, a) && s.counter == x % 0x1_0000_0000
    ensures var t := Apply(n, debug, s, a); !t.terminated ==> t.counter == (x + Change(a)) % 0x1_0000_0000
  {
    OneMore(x, s.counter);
    OneLess(x, s.counter);
  }

  lemma OneMore(x: int, c: nat)
    requires c == x % 0x1_0000_0000
    ensures Incremented(c) == (x + 1) % 0x1_0000_0000
  {
  }

  lemma OneLess(x: int, c: nat)
    requires c == x % 0x1_0000_0000
    ensures Decremented(c) == (x - 1) % 0x1_0000_0000
  {
  }

  lemma {:induction false} CounterIs(n: nat, debug: bool, clients: nat, actions: seq<Action>, x: int)
    requires IsRun(n, debug, Initial(clients), actions) && x == Ups(actions) - Downs(actions)
    ensures var s := After(n, debug, Initial(clients), actions); !s.terminated ==> s.counter == x % 0x1_0000_0000
    decreases |actions|
  {
    if actions != [] {
      var front, last := actions[..|actions| - 1], actions[|actions| - 1];
      assert front + [last] == actions;
      ChangeCounted(front, last);
      LastStep(n, debug, Initial(clients), actions);
      CounterIs(n, debug, clients, front, x - Change(last));
      CounterStep(n, debug, After(n, debug, Initial(clients), front), last, x - Change(last));
    }
  }

  /** The counter is the number of increments less that of decrements, in 32 bits. */
  lemma CounterLaw(n: nat, debug: bool, clients: nat, actions: seq<Action>)
    requires IsRun(n, debug, Initial(clients), actions)
    ensures var s := After(n, debug, Initial(clients), actions);
            !s.terminated ==> s.counter == (Ups(actions) - Downs(actions)) % 0x1_0000_0000
  {
    CounterIs(n, debug, clients, actions, Ups(actions) - Downs(actions));
  }

  // ----- workers -----

  lemma {:induction false} BusySet(tasks: seq<Task>)
    ensures |set k | 0 <= k < |tasks| && IsBusy(tasks[k])| == Total(tasks, Busy)
  {
    var all := set k | 0 <= k < |tasks| && IsBusy(tasks[k]);
    if tasks == [] {
      assert all == {};
    } else {
      var rest := tasks[..|tasks| - 1];
      var last := |tasks| - 1;
      var others := set k | 0 <= k < |rest| && IsBusy(rest[k]);
      BusySet(rest);
      assert tasks == rest + [tasks[last]];
      TotalAppend(rest, tasks[last], Busy);
      assert all == others + if IsBusy(tasks[last]) then {last} else {};
    }
  }

  /** No more tasks are being run at a time than there are threads. */
  lemma WorkersLaw(n: nat, debug: bool, clients: nat, actions: seq<Action>)
    requires IsRun(n, debug, Initial(clients), actions)
    ensures var tasks := After(n, debug, Initial(clients), actions).tasks;
            |set k | 0 <= k < |tasks| && (tasks[k].stage == Running || tasks[k].stage == Calling ||
                                          tasks[k].stage == Settled || tasks[k].stage == Uncounted)| <= n
  {
    var tasks := After(n, debug, Initial(clients), actions).tasks;
    InitialInvariant(n, clients);
    RunInvariant(n, debug, Initial(clients), actions);
    BusySet(tasks);
    assert (set k | 0 <= k < |tasks| && (tasks[k].stage == Running || tasks[k].stage == Calling ||
                                         tasks[k].stage == Settled || tasks[k].stage == Uncounted)) ==
           set k | 0 <= k < |tasks| && IsBusy(tasks[k]);
  }

  // ----- the start of the threads -----

  /** The first submission starts the threads; without threads to start it is refused, and the
      client is outside again with nothing submitted. */
  lemma StartLaw(n: nat, debug: bool, clients: nat, actions: seq<Action>, c: nat)
    requires IsRun(n, debug, Initial(clients), actions)
    requires Enabled(After(n, debug, Initial(clients), actions), StartThreads(c))
    ensures var s := After(n, debug, Initial(clients), actions);
            var t := Apply(n, debug, s, StartThreads(c));
            s.tasks == [] && t.tasks == [] && t.counter == s.counter &&
            if n == 0 then !t.started && t.creations == 0 && t.lock == None && t.clients == s.clients[c := Outside]
            else t.started && t.creations == 1 && t.group == n && t.lock == Some(c) && t.clients == s.clients
  {
    InitialInvariant(n, clients);
    RunInvariant(n, debug, Initial(clients), actions);
  }

  /** A client in wait returns and frees the submission mutex exactly if the counter is 0, and
      otherwise sleeps with it. */
  lemma WaitLaw(n: nat, debug: bool, s: State, c: nat)
    requires Enabled(s, Check(c))
    ensures var t := Apply(n, debug, s, Check(c));
            t.tasks == s.tasks && t.counter == s.counter &&
            if s.counter == 0 then t.clients == s.clients[c := Outside] && t.lock == None
            else t.clients == s.clients[c := Sleeping] && t.lock == s.lock
  {
  }
}
