/** GBoundedBufferT as a system of threads around one mutex and two condition variables.
    Between any two atomic actions any other thread may act, sleepers may wake spuriously or by
    time-out, and a thread that newly enters may overtake one that was notified. */
module BoundedBuffer {
  import opened Wrappers

  /** The calls; the copying and the moving variants differ only in how an item is stored. */
  datatype Call<T> =
    | PushAndBlock(item: T) | PushAndWait(item: T) | TryPush(item: T)
    | PopAndBlock | PopAndWait | TryPop

  datatype Condition = NotEmpty | NotFull

  /** A successful call, recorded when it changes the container. */
  datatype Event<T> = Pushed(thread: nat, item: T) | Popped(thread: nat, item: T, tried: bool)

  /** Where a thread is:
      - Idle: outside of the buffer;
      - Entering: about to lock the mutex for the first time;
      - Asleep: in the wait set of its call's condition variable;
      - Awake: it has left the wait set, `expired` by time-out, and is about to lock again;
      - Holding: it owns the mutex, `woken` after a wait;
      - Notifying: it has done its work and unlocked; its notify_one is still to come. */
  datatype Place<T> =
    | Idle
    | Entering(call: Call<T>)
    | Asleep(call: Call<T>)
    | Awake(call: Call<T>, expired: bool)
    | Holding(call: Call<T>, woken: bool, expired: bool)
    | Notifying(condition: Condition, event: Event<T>)

  /** `returned` lists, for each thread, the successful calls it has come back from. */
  datatype State<T> = State(
    container: seq<T>,
    lock: Option<nat>,
    threads: seq<Place<T>>,
    history: seq<Event<T>>,
    returned: seq<seq<Event<T>>>)

  datatype Action<T> =
    | Invoke(thread: nat, call: Call<T>)
    | Acquire(thread: nat)
    | Critical(thread: nat)
    | Notify(thread: nat, target: Option<nat>)
    | WakeSpuriously(thread: nat)
    | TimeOut(thread: nat)

  // ----- the critical sections -----

  predicate IsPush<T>(c: Call<T>) { c.PushAndBlock? || c.PushAndWait? || c.TryPush? }
  predicate IsTimed<T>(c: Call<T>) { c.PushAndWait? || c.PopAndWait? }
  predicate IsTry<T>(c: Call<T>) { c.TryPush? || c.TryPop? }

  /** The condition variable a call waits on. */
  function WaitsOn<T>(c: Call<T>): Condition { if IsPush(c) then NotFull else NotEmpty }

  /** The condition variable a successful call notifies; a successful try_pop wakes a consumer,
      not a producer. */
  function Notifies<T>(c: Call<T>): Condition {
    if IsPush(c) || c.TryPop? then NotEmpty else NotFull
  }

  /** The predicate a call waits for. A capacity of 0 stands for an unlimited buffer. */
  predicate MayProceed<T>(capacity: nat, container: seq<T>, c: Call<T>) {
    if IsPush(c) then capacity == 0 || |container| < capacity else |container| > 0
  }

  /** Items enter at the front and leave at the back. */
  function ContainerAfter<T>(container: seq<T>, c: Call<T>): seq<T>
    requires IsPush(c) || |container| > 0
  {
    if IsPush(c) then [c.item] + container else container[..|container| - 1]
  }

  function EventOf<T>(container: seq<T>, thread: nat, c: Call<T>): Event<T>
    requires IsPush(c) || |container| > 0
  {
    if IsPush(c) then Pushed(thread, c.item) else Popped(thread, container[|container| - 1], c.TryPop?)
  }

  // ----- actions -----

  predicate SleepsOn<T>(p: Place<T>, c: Condition) { p.Asleep? && WaitsOn(p.call) == c }

  predicate Enabled<T>(s: State<T>, a: Action<T>) {
    var i := a.thread;
    i < |s.threads| && |s.returned| == |s.threads| &&
    match a
    case Invoke(_, _) => s.threads[i].Idle?
    case Acquire(_) => s.lock.None? && (s.threads[i].Entering? || s.threads[i].Awake?)
    case Critical(_) => s.lock == Some(i) && s.threads[i].Holding?
    case Notify(_, target) =>
      s.threads[i].Notifying? &&
      var c := s.threads[i].condition;
      if target.Some? then target.value < |s.threads| && SleepsOn(s.threads[target.value], c)
      else forall j :: 0 <= j < |s.threads| ==> !SleepsOn(s.threads[j], c)
    case WakeSpuriously(_) => s.threads[i].Asleep?
    case TimeOut(_) => s.threads[i].Asleep? && IsTimed(s.threads[i].call)
  }

  function Move<T>(s: State<T>, i: nat, p: Place<T>): State<T>
    requires i < |s.threads|
  {
    s.(threads := s.threads[i := p])
  }

  /** The critical section: proceed, give up, or release the mutex and fall asleep in one step. */
  function DoCritical<T>(capacity: nat, s: State<T>, i: nat): State<T>
    requires i < |s.threads| && s.threads[i].Holding?
  {
    var p := s.threads[i];
    var c := p.call;
    var t := s.(lock := None);
    if MayProceed(capacity, s.container, c) then
      var event := EventOf(s.container, i, c);
      Move(t, i, Notifying(Notifies(c), event))
        .(container := ContainerAfter(s.container, c), history := s.history + [event])
    else if IsTry(c) || (IsTimed(c) && p.expired) then Move(t, i, Idle)
    else Move(t, i, Asleep(c))
  }

  function Apply<T>(capacity: nat, s: State<T>, a: Action<T>): State<T>
    requires Enabled(s, a)
  {
    var i := a.thread;
    match a
    case Invoke(_, call) => Move(s, i, Entering(call))
    case Acquire(_) =>
      var p := s.threads[i];
      Move(s.(lock := Some(i)), i, Holding(p.call, p.Awake?, p.Awake? && p.expired))
    case Critical(_) => DoCritical(capacity, s, i)
    case Notify(_, target) =>
      var done := Move(s, i, Idle).(returned := s.returned[i := s.returned[i] + [s.threads[i].event]]);
      if target.Some? then Move(done, target.value, Awake(s.threads[target.value].call, false)) else done
    case WakeSpuriously(_) => Move(s, i, Awake(s.threads[i].call, false))
    case TimeOut(_) => Move(s, i, Awake(s.threads[i].call, true))
  }

  function Initial<T>(n: nat): State<T> {
    State([], None, seq(n, _ => Idle), [], seq(n, _ => []))
  }

  /** A run is any list of actions each of which is enabled when it is taken. */
  predicate IsRun<T>(capacity: nat, s: State<T>, actions: seq<Action<T>>)
    decreases |actions|
  {
    actions == [] || (Enabled(s, actions[0]) && IsRun(capacity, Apply(capacity, s, actions[0]), actions[1..]))
  }

  function After<T>(capacity: nat, s: State<T>, actions: seq<Action<T>>): State<T>
    requires IsRun(capacity, s, actions)
    decreases |actions|
  {
    if actions == [] then s else After(capacity, Apply(capacity, s, actions[0]), actions[1..])
  }

  // ----- first in, first out -----

  function Pushes<T>(h: seq<Event<T>>): seq<T> {
    if h == [] then []
    else
      var e := h[|h| - 1];
      Pushes(h[..|h| - 1]) + if e.Pushed? then [e.item] else []
  }

  function Pops<T>(h: seq<Event<T>>): seq<T> {
    if h == [] then []
    else
      var e := h[|h| - 1];
      Pops(h[..|h| - 1]) + if e.Popped? then [e.item] else []
  }

  /** The events of one thread. */
  function Own<T>(h: seq<Event<T>>, thread: nat): seq<Event<T>> {
    if h == [] then []
    else
      var e := h[|h| - 1];
      Own(h[..|h| - 1], thread) + if e.thread == thread then [e] else []
  }

  /** How many successful calls of try_pop there were. */
  function TriedPops<T>(h: seq<Event<T>>): nat {
    if h == [] then 0
    else
      var e := h[|h| - 1];
      TriedPops(h[..|h| - 1]) + if e.Popped? && e.tried then 1 else 0
  }

  function Reversed<T>(q: seq<T>): seq<T> {
    if q == [] then [] else Reversed(q[1..]) + [q[0]]
  }

  lemma {:induction false} ReversedBack<T>(q: seq<T>)
    requires |q| > 0
    ensures Reversed(q) == [q[|q| - 1]] + Reversed(q[..|q| - 1])
  {
    if |q| > 1 {
      ReversedBack(q[1..]);
      assert q[1..][..|q| - 2] == q[..|q| - 1][1..];
    }
  }

  /** What has been pushed, in the order of the critical sections, is what has been popped
      followed by the container from back to front. */
  ghost predicate Fifo<T>(s: State<T>) { Pushes(s.history) == Pops(s.history) + Reversed(s.container) }

  /** What a thread's successful calls have reported is what it did. */
  ghost predicate Faithful<T>(s: State<T>) {
    |s.returned| == |s.threads| &&
    forall i :: 0 <= i < |s.threads| ==>
      Own(s.history, i) == s.returned[i] + if s.threads[i].Notifying? then [s.threads[i].event] else []
  }

  // ----- wakeups under way -----

  /** A thread that will still look at the container on behalf of the sleepers on `c`: one whose
      notification is outstanding, or one that was woken and has not looked yet. */
  predicate IsUnderWay<T>(p: Place<T>, c: Condition) {
    match p
    case Notifying(d, _) => d == c
    case Awake(call, _) => WaitsOn(call) == c
    case Holding(call, woken, _) => woken && WaitsOn(call) == c
    case _ => false
  }

  function UnderWay<T>(threads: seq<Place<T>>, c: Condition): nat {
    if threads == [] then 0
    else (if IsUnderWay(threads[0], c) then 1 else 0) + UnderWay(threads[1..], c)
  }

  lemma {:induction false} UnderWayUpdate<T>(threads: seq<Place<T>>, i: nat, p: Place<T>, c: Condition)
    requires i < |threads|
    ensures UnderWay(threads[i := p], c) + (if IsUnderWay(threads[i], c) then 1 else 0) ==
            UnderWay(threads, c) + (if IsUnderWay(p, c) then 1 else 0)
  {
    if i == 0 {
      assert threads[0 := p][1..] == threads[1..];
    } else {
      assert threads[i := p][1..] == threads[1..][i - 1 := p];
      UnderWayUpdate(threads[1..], i - 1, p, c);
    }
  }

  predicate SomeSleeps<T>(s: State<T>, c: Condition) {
    exists i :: 0 <= i < |s.threads| && SleepsOn(s.threads[i], c)
  }

  /** While a consumer sleeps, every item has a wakeup under way. */
  predicate ConsumersServed<T>(s: State<T>) {
    SomeSleeps(s, NotEmpty) ==> |s.container| <= UnderWay(s.threads, NotEmpty)
  }

  /** While a producer sleeps, every free slot has a wakeup under way, except for at most one
      for each successful try_pop. */
  predicate ProducersServed<T>(capacity: nat, s: State<T>, missed: nat) {
    SomeSleeps(s, NotFull) ==> capacity - |s.container| <= UnderWay(s.threads, NotFull) + missed
  }

  // ----- the invariant -----

  ghost predicate Shape<T>(s: State<T>) {
    |s.returned| == |s.threads| &&
    (forall i :: 0 <= i < |s.threads| ==> (s.threads[i].Holding? <==> s.lock == Some(i))) &&
    (s.lock.Some? ==> s.lock.value < |s.threads|) &&
    forall i :: 0 <= i < |s.threads| ==> (s.threads[i].Asleep? || s.threads[i].Awake?) ==> !IsTry(s.threads[i].call)
  }

  ghost predicate Bounded<T>(capacity: nat, s: State<T>) {
    (capacity > 0 ==> |s.container| <= capacity) &&
    (capacity == 0 ==> !SomeSleeps(s, NotFull))
  }

  ghost predicate Invariant<T>(capacity: nat, s: State<T>) {
    Shape(s) && Bounded(capacity, s) && Fifo(s) && Faithful(s) &&
    ConsumersServed(s) && ProducersServed(capacity, s, TriedPops(s.history))
  }

  lemma {:induction false} InitialInvariant<T>(capacity: nat, n: nat)
    ensures Invariant(capacity, Initial<T>(n))
  {
  }

  /** Everything but a critical section leaves container and history alone. */
  lemma MoveKeepsServed<T>(capacity: nat, s: State<T>, i: nat, p: Place<T>, missed: nat)
    requires i < |s.threads| && ConsumersServed(s) && ProducersServed(capacity, s, missed)
    requires !p.Asleep?
    requires forall c: Condition :: IsUnderWay(s.threads[i], c) ==> IsUnderWay(p, c)
    ensures ConsumersServed(Move(s, i, p)) && ProducersServed(capacity, Move(s, i, p), missed)
    ensures capacity == 0 && !SomeSleeps(s, NotFull) ==> !SomeSleeps(Move(s, i, p), NotFull)
  {
    UnderWayUpdate(s.threads, i, p, NotEmpty);
    UnderWayUpdate(s.threads, i, p, NotFull);
    var t := Move(s, i, p);
    assert forall j :: 0 <= j < |t.threads| && j != i ==> t.threads[j] == s.threads[j];
  }

  lemma SimpleStep<T>(capacity: nat, s: State<T>, a: Action<T>)
    requires Invariant(capacity, s) && Enabled(s, a) && !a.Critical? && !a.Notify?
    ensures Invariant(capacity, Apply(capacity, s, a))
  {
    var i := a.thread;
    var t := Apply(capacity, s, a);
    MoveKeepsServed(capacity, s, i, t.threads[i], TriedPops(s.history));
    assert t.threads == s.threads[i := t.threads[i]];
  }

  lemma NotifyServes<T>(capacity: nat, s: State<T>, a: Action<T>, missed: nat)
    requires Enabled(s, a) && a.Notify? && ConsumersServed(s) && ProducersServed(capacity, s, missed)
    ensures var t := Apply(capacity, s, a); ConsumersServed(t) && ProducersServed(capacity, t, missed)
  {
    var i, target := a.thread, a.target;
    var t := Apply(capacity, s, a);
    var done := s.threads[i := Idle];
    UnderWayUpdate(s.threads, i, Idle, NotEmpty);
    UnderWayUpdate(s.threads, i, Idle, NotFull);
    if target.Some? {
      var p := Awake(s.threads[target.value].call, false);
      assert t.threads == done[target.value := p];
      UnderWayUpdate(done, target.value, p, NotEmpty);
      UnderWayUpdate(done, target.value, p, NotFull);
    }
    assert forall j :: 0 <= j < |t.threads| && t.threads[j].Asleep? ==> s.threads[j] == t.threads[j];
  }

  lemma NotifyStep<T>(capacity: nat, s: State<T>, a: Action<T>)
    requires Invariant(capacity, s) && Enabled(s, a) && a.Notify?
    ensures Invariant(capacity, Apply(capacity, s, a))
  {
    var t := Apply(capacity, s, a);
    NotifyServes(capacity, s, a, TriedPops(s.history));
    assert forall j :: 0 <= j < |t.threads| && t.threads[j].Asleep? ==> s.threads[j] == t.threads[j];
  }

  /** A call that gives up or goes to sleep leaves no trace. */
  lemma CriticalFails<T>(capacity: nat, s: State<T>, i: nat)
    requires Shape(s) && Fifo(s) && Faithful(s) && i < |s.threads| && s.threads[i].Holding?
    requires !MayProceed(capacity, s.container, s.threads[i].call)
    ensures var t := DoCritical(capacity, s, i);
            Shape(t) && Fifo(t) && Faithful(t) && t.container == s.container && t.history == s.history
  {
  }

  lemma CriticalFailsServed<T>(capacity: nat, s: State<T>, i: nat)
    requires Bounded(capacity, s) && ConsumersServed(s) && ProducersServed(capacity, s, TriedPops(s.history))
    requires i < |s.threads| && s.threads[i].Holding? && !MayProceed(capacity, s.container, s.threads[i].call)
    ensures var t := DoCritical(capacity, s, i);
            Bounded(capacity, t) && ConsumersServed(t) && ProducersServed(capacity, t, TriedPops(t.history))
  {
    var t := DoCritical(capacity, s, i);
    UnderWayUpdate(s.threads, i, t.threads[i], NotEmpty);
    UnderWayUpdate(s.threads, i, t.threads[i], NotFull);
    assert forall j :: 0 <= j < |t.threads| && j != i ==> t.threads[j] == s.threads[j];
  }

  lemma CriticalHistory<T>(capacity: nat, s: State<T>, i: nat)
    requires Invariant(capacity, s) && i < |s.threads| && s.threads[i].Holding?
    requires MayProceed(capacity, s.container, s.threads[i].call)
    ensures var t := DoCritical(capacity, s, i); Shape(t) && Fifo(t) && Faithful(t)
  {
    var c := s.threads[i].call;
    var t := DoCritical(capacity, s, i);
    assert t.history[..|t.history| - 1] == s.history;
    if !IsPush(c) {
      ReversedBack(s.container);
    } else {
      assert ([c.item] + s.container)[1..] == s.container;
    }
  }

  lemma CriticalServes<T>(capacity: nat, s: State<T>, i: nat)
    requires Invariant(capacity, s) && i < |s.threads| && s.threads[i].Holding?
    requires MayProceed(capacity, s.container, s.threads[i].call)
    ensures var t := DoCritical(capacity, s, i);
            Bounded(capacity, t) && ConsumersServed(t) && ProducersServed(capacity, t, TriedPops(t.history))
  {
    var t := DoCritical(capacity, s, i);
    assert t.history[..|t.history| - 1] == s.history;
    UnderWayUpdate(s.threads, i, t.threads[i], NotEmpty);
    UnderWayUpdate(s.threads, i, t.threads[i], NotFull);
    assert forall j :: 0 <= j < |t.threads| && j != i ==> t.threads[j] == s.threads[j];
  }

  lemma StepInvariant<T>(capacity: nat, s: State<T>, a: Action<T>)
    requires Invariant(capacity, s) && Enabled(s, a)
    ensures Invariant(capacity, Apply(capacity, s, a))
  {
    if a.Critical? {
      if MayProceed(capacity, s.container, s.threads[a.thread].call) {
        CriticalHistory(capacity, s, a.thread);
        CriticalServes(capacity, s, a.thread);
      } else {
        CriticalFails(capacity, s, a.thread);
        CriticalFailsServed(capacity, s, a.thread);
      }
    } else if a.Notify? {
      NotifyStep(capacity, s, a);
    } else {
      SimpleStep(capacity, s, a);
    }
  }

  lemma {:induction false} RunInvariant<T>(capacity: nat, s: State<T>, actions: seq<Action<T>>)
    requires Invariant(capacity, s) && IsRun(capacity, s, actions)
    ensures Invariant(capacity, After(capacity, s, actions))
    decreases |actions|
  {
    if actions != [] {
      StepInvariant(capacity, s, actions[0]);
      RunInvariant(capacity, Apply(capacity, s, actions[0]), actions[1..]);
    }
  }

  // ----- theorems about every run -----

  /** Wakeups are never lost on the consumer side, whatever calls are made. */
  lemma NoLostConsumerWakeup<T>(capacity: nat, n: nat, actions: seq<Action<T>>)
    requires IsRun(capacity, Initial(n), actions)
    ensures var s := After(capacity, Initial(n), actions);
            (exists i :: 0 <= i < |s.threads| && s.threads[i].Asleep? &&
                         (s.threads[i].call.PopAndBlock? || s.threads[i].call.PopAndWait?)) ==>
              |s.container| <= UnderWay(s.threads, NotEmpty)
  {
    InitialInvariant<T>(capacity, n);
    RunInvariant(capacity, Initial(n), actions);
  }

  /** On the producer side a successful try_pop loses at most one wakeup. */
  lemma LostProducerWakeupsBounded<T>(capacity: nat, n: nat, actions: seq<Action<T>>)
    requires IsRun(capacity, Initial(n), actions)
    ensures var s := After(capacity, Initial(n), actions);
            (exists i :: 0 <= i < |s.threads| && s.threads[i].Asleep? &&
                         (s.threads[i].call.PushAndBlock? || s.threads[i].call.PushAndWait?)) ==>
              capacity - |s.container| <= UnderWay(s.threads, NotFull) + TriedPops(s.history)
  {
    InitialInvariant<T>(capacity, n);
    RunInvariant(capacity, Initial(n), actions);
  }

  /** Linearisability: at any time the history is that of a queue, never longer than the
      capacity, and each thread has been told exactly what it did. */
  lemma LinearisableFifo<T>(capacity: nat, n: nat, actions: seq<Action<T>>)
    requires IsRun(capacity, Initial(n), actions)
    ensures var s := After(capacity, Initial(n), actions);
            Pushes(s.history) == Pops(s.history) + Reversed(s.container) &&
            (capacity > 0 ==> |s.container| <= capacity) && |s.threads| == |s.returned| &&
            forall i :: 0 <= i < |s.threads| ==>
              Own(s.history, i) == s.returned[i] + if s.threads[i].Notifying? then [s.threads[i].event] else []
  {
    InitialInvariant<T>(capacity, n);
    RunInvariant(capacity, Initial(n), actions);
  }

  /** At most one thread is in a critical section, and it is the owner of the mutex. */
  lemma MutualExclusion<T>(capacity: nat, n: nat, actions: seq<Action<T>>)
    requires IsRun(capacity, Initial(n), actions)
    ensures var s := After(capacity, Initial(n), actions);
            forall i, j | 0 <= i < |s.threads| && 0 <= j < |s.threads| ::
              s.threads[i].Holding? && s.threads[j].Holding? ==> i == j
  {
    InitialInvariant<T>(capacity, n);
    RunInvariant(capacity, Initial(n), actions);
  }

  // ----- runs without try_pop -----

  predicate Avoids<T>(actions: seq<Action<T>>) {
    forall k :: 0 <= k < |actions| ==> actions[k].Invoke? ==> !actions[k].call.TryPop?
  }

  predicate InTryPop<T>(p: Place<T>) {
    match p
    case Entering(c) => c.TryPop?
    case Asleep(c) => c.TryPop?
    case Awake(c, _) => c.TryPop?
    case Holding(c, _, _) => c.TryPop?
    case _ => false
  }

  ghost predicate NoTries<T>(s: State<T>) {
    TriedPops(s.history) == 0 && forall i :: 0 <= i < |s.threads| ==> !InTryPop(s.threads[i])
  }

  lemma TriedPopsAppend<T>(h: seq<Event<T>>, e: Event<T>)
    ensures TriedPops(h + [e]) == TriedPops(h) + if e.Popped? && e.tried then 1 else 0
  {
    assert (h + [e])[..|h|] == h;
  }

  lemma CriticalWithoutTries<T>(capacity: nat, s: State<T>, i: nat)
    requires NoTries(s) && i < |s.threads| && s.threads[i].Holding?
    ensures NoTries(DoCritical(capacity, s, i))
  {
    var c := s.threads[i].call;
    assert !c.TryPop?;
    if MayProceed(capacity, s.container, c) {
      TriedPopsAppend(s.history, EventOf(s.container, i, c));
    }
    var t := DoCritical(capacity, s, i);
    forall j | 0 <= j < |t.threads| ensures !InTryPop(t.threads[j]) {
      if j != i {
        assert t.threads[j] == s.threads[j];
      }
    }
  }

  lemma StepWithoutTries<T>(capacity: nat, s: State<T>, a: Action<T>)
    requires NoTries(s) && Enabled(s, a) && (a.Invoke? ==> !a.call.TryPop?)
    ensures NoTries(Apply(capacity, s, a))
  {
    if a.Critical? {
      CriticalWithoutTries(capacity, s, a.thread);
    } else {
      var t := Apply(capacity, s, a);
      assert t.history == s.history;
      forall j | 0 <= j < |t.threads| ensures !InTryPop(t.threads[j]) {
        assert !InTryPop(s.threads[j]);
      }
    }
  }

  lemma {:induction false} RunWithoutTries<T>(capacity: nat, s: State<T>, actions: seq<Action<T>>)
    requires NoTries(s) && IsRun(capacity, s, actions) && Avoids(actions)
    ensures NoTries(After(capacity, s, actions))
    decreases |actions|
  {
    if actions != [] {
      StepWithoutTries(capacity, s, actions[0]);
      RunWithoutTries(capacity, Apply(capacity, s, actions[0]), actions[1..]);
    }
  }

  /** Without try_pop no wakeup is lost on the producer side either. */
  lemma NoLostProducerWakeup<T>(capacity: nat, n: nat, actions: seq<Action<T>>)
    requires IsRun(capacity, Initial(n), actions) && Avoids(actions)
    ensures var s := After(capacity, Initial(n), actions);
            (exists i :: 0 <= i < |s.threads| && s.threads[i].Asleep? &&
                         (s.threads[i].call.PushAndBlock? || s.threads[i].call.PushAndWait?)) ==>
              capacity - |s.container| <= UnderWay(s.threads, NotFull)
  {
    LostProducerWakeupsBounded(capacity, n, actions);
    RunWithoutTries(capacity, Initial(n), actions);
  }

  /** Every thread is outside or asleep, with sleepers on both condition variables: only a
      spurious wakeup or a time-out can go on from here. */
  predicate Deadlocked<T>(s: State<T>) {
    SomeSleeps(s, NotEmpty) && SomeSleeps(s, NotFull) &&
    forall i :: 0 <= i < |s.threads| ==> s.threads[i].Idle? || s.threads[i].Asleep?
  }

  lemma {:induction false} QuietMeansNoneUnderWay<T>(threads: seq<Place<T>>, c: Condition)
    requires forall i :: 0 <= i < |threads| ==> threads[i].Idle? || threads[i].Asleep?
    ensures UnderWay(threads, c) == 0
  {
    if threads != [] {
      QuietMeansNoneUnderWay(threads[1..], c);
    }
  }

  lemma NoDeadlock<T>(capacity: nat, n: nat, actions: seq<Action<T>>)
    requires IsRun(capacity, Initial(n), actions) && Avoids(actions)
    ensures !Deadlocked(After(capacity, Initial(n), actions))
  {
    var s := After(capacity, Initial(n), actions);
    NoLostConsumerWakeup(capacity, n, actions);
    NoLostProducerWakeup(capacity, n, actions);
    InitialInvariant<T>(capacity, n);
    RunInvariant(capacity, Initial(n), actions);
    if Deadlocked(s) {
      QuietMeansNoneUnderWay(s.threads, NotEmpty);
      QuietMeansNoneUnderWay(s.threads, NotFull);
      assert false;
    }
  }

  // ----- the run that loses wakeups -----

  /** The state behind the action with which two runs start. */
  lemma SameStart<T>(capacity: nat, s: State<T>, a: seq<Action<T>>, b: seq<Action<T>>) returns (t: State<T>)
    requires a != [] && b != [] && b[0] == a[0] && IsRun(capacity, s, a)
    ensures IsRun(capacity, t, a[1..]) && After(capacity, s, a) == After(capacity, t, a[1..])
    ensures IsRun(capacity, t, b[1..]) ==>
            IsRun(capacity, s, b) && After(capacity, s, b) == After(capacity, t, b[1..])
  {
    t := Apply(capacity, s, a[0]);
  }

  lemma {:induction false} RunsCompose<T>(capacity: nat, s: State<T>, a: seq<Action<T>>, b: seq<Action<T>>)
    requires IsRun(capacity, s, a) && IsRun(capacity, After(capacity, s, a), b)
    ensures IsRun(capacity, s, a + b) && After(capacity, s, a + b) == After(capacity, After(capacity, s, a), b)
    decreases |a|
  {
    if a == [] {
      assert a + b == b;
    } else {
      var t := SameStart(capacity, s, a, a + b);
      RunsCompose(capacity, t, a[1..], b);
      assert (a + b)[1..] == a[1..] + b;
    }
  }

  lemma RunStarts<T>(capacity: nat, s: State<T>, a: Action<T>, rest: seq<Action<T>>)
    requires Enabled(s, a) && IsRun(capacity, Apply(capacity, s, a), rest)
    ensures IsRun(capacity, s, [a] + rest)
    ensures After(capacity, s, [a] + rest) == After(capacity, Apply(capacity, s, a), rest)
  {
    assert ([a] + rest)[1..] == rest;
  }

  /** Thread 0 makes one call that does not wait, while thread 1 sleeps or is idle. */
  function Solo<T>(c: Call<T>): seq<Action<T>> { [Invoke(0, c), Acquire(0), Critical(0), Notify(0, None)] }

  ghost predicate Two<T>(s: State<T>, size: nat, other: Place<T>) {
    s.threads == [Idle, other] && s.lock == None && |s.returned| == 2 && |s.container| == size
  }

  lemma SoloTryPush<T>(capacity: nat, s: State<T>, size: nat, item: T)
    requires size < capacity && Two(s, size, Idle)
    ensures IsRun(capacity, s, Solo(Call.TryPush(item))) &&
      Two(After(capacity, s, Solo(Call.TryPush(item))), size + 1, Idle)
  {
    var run := Solo(Call.TryPush(item));
    var s1 := Apply(capacity, s, run[0]);
    var s2 := Apply(capacity, s1, run[1]);
    var s3 := Apply(capacity, s2, run[2]);
    var s4 := Apply(capacity, s3, run[3]);
    assert s4.threads == [Idle, Idle];
    RunStarts(capacity, s3, run[3], []);
    RunStarts(capacity, s2, run[2], [run[3]] + []);
    RunStarts(capacity, s1, run[1], [run[2]] + ([run[3]] + []));
    RunStarts(capacity, s, run[0], [run[1]] + ([run[2]] + ([run[3]] + [])));
    assert run == [run[0]] + ([run[1]] + ([run[2]] + ([run[3]] + [])));
  }

  lemma SoloTryPop<T>(capacity: nat, s: State<T>, size: nat, other: Place<T>)
    requires size > 0 && Two(s, size, other) && !SleepsOn(other, NotEmpty)
    ensures IsRun(capacity, s, Solo(TryPop)) && Two(After(capacity, s, Solo(TryPop)), size - 1, other)
  {
    var run := Solo<T>(TryPop);
    var s1 := Apply(capacity, s, run[0]);
    var s2 := Apply(capacity, s1, run[1]);
    var s3 := Apply(capacity, s2, run[2]);
    var s4 := Apply(capacity, s3, run[3]);
    assert s4.threads == [Idle, other];
    RunStarts(capacity, s3, run[3], []);
    RunStarts(capacity, s2, run[2], [run[3]] + []);
    RunStarts(capacity, s1, run[1], [run[2]] + ([run[3]] + []));
    RunStarts(capacity, s, run[0], [run[1]] + ([run[2]] + ([run[3]] + [])));
    assert run == [run[0]] + ([run[1]] + ([run[2]] + ([run[3]] + [])));
  }

  /** A blocking call of a thread that cannot proceed puts it to sleep. */
  lemma FallsAsleep<T>(capacity: nat, s: State<T>, i: nat, c: Call<T>)
    requires |s.threads| == 2 == |s.returned| && i < 2 && s.threads[i].Idle? && s.lock == None
    requires (c.PushAndBlock? || c.PopAndBlock?) && !MayProceed(capacity, s.container, c)
    ensures var run := [Invoke(i, c), Acquire(i), Critical(i)];
            IsRun(capacity, s, run) &&
            After(capacity, s, run) == s.(threads := s.threads[i := Asleep(c)])
  {
    var run := [Invoke(i, c), Acquire(i), Critical(i)];
    var s1 := Apply(capacity, s, run[0]);
    var s2 := Apply(capacity, s1, run[1]);
    var s3 := Apply(capacity, s2, run[2]);
    RunStarts(capacity, s2, run[2], []);
    RunStarts(capacity, s1, run[1], [run[2]] + []);
    RunStarts(capacity, s, run[0], [run[1]] + ([run[2]] + []));
    assert run == [run[0]] + ([run[1]] + ([run[2]] + []));
    assert s3.threads == s.threads[i := Asleep(c)];
  }

  lemma {:induction false} FillUp<T>(capacity: nat, item: T, size: nat) returns (run: seq<Action<T>>)
    requires size <= capacity
    ensures IsRun(capacity, Initial(2), run) && Two(After(capacity, Initial(2), run), size, Idle)
  {
    if size == 0 {
      run := [];
      assert Initial<T>(2).threads == [Idle, Idle];
    } else {
      var before := FillUp(capacity, item, size - 1);
      SoloTryPush(capacity, After(capacity, Initial(2), before), size - 1, item);
      RunsCompose(capacity, Initial(2), before, Solo(Call.TryPush(item)));
      run := before + Solo(Call.TryPush(item));
    }
  }

  lemma {:induction false} Drain<T>(capacity: nat, s: State<T>, size: nat, other: Place<T>)
      returns (run: seq<Action<T>>)
    requires Two(s, size, other) && !SleepsOn(other, NotEmpty)
    ensures IsRun(capacity, s, run) && Two(After(capacity, s, run), 0, other)
    decreases size
  {
    if size == 0 {
      run := [];
    } else {
      SoloTryPop(capacity, s, size, other);
      var t := After(capacity, s, Solo(TryPop));
      var later := Drain(capacity, t, size - 1, other);
      RunsCompose(capacity, s, Solo(TryPop), later);
      run := Solo(TryPop) + later;
    }
  }

  /** For every bounded buffer there is a run of two threads in which try_pop empties the buffer
      while a producer sleeps, nobody wakes the producer, and the next consumer deadlocks. */
  lemma TryPopDeadlocks<T>(capacity: nat, item: T) returns (run: seq<Action<T>>)
    requires capacity > 0
    ensures IsRun(capacity, Initial(2), run)
    ensures Deadlocked(After(capacity, Initial(2), run)) && After(capacity, Initial(2), run).container == []
  {
    var fill := FillUp(capacity, item, capacity);
    var full := After(capacity, Initial(2), fill);
    var sleep := [Invoke(1, PushAndBlock(item)), Acquire(1), Critical(1)];
    FallsAsleep(capacity, full, 1, PushAndBlock(item));
    var stuck := After(capacity, full, sleep);
    assert Two(stuck, capacity, Asleep(PushAndBlock(item)));
    var drain := Drain(capacity, stuck, capacity, Asleep(PushAndBlock(item)));
    var empty := After(capacity, stuck, drain);
    var wait := [Invoke(0, PopAndBlock), Acquire(0), Critical(0)];
    FallsAsleep(capacity, empty, 0, PopAndBlock);
    RunsCompose(capacity, stuck, drain, wait);
    RunsCompose(capacity, full, sleep, drain + wait);
    RunsCompose(capacity, Initial(2), fill, sleep + (drain + wait));
    run := fill + (sleep + (drain + wait));
    var end := After(capacity, Initial(2), run);
    assert end.threads[0] == Asleep(PopAndBlock) && end.threads[1] == Asleep(PushAndBlock(item));
  }

  ghost predicate LeadsToDeadlock<T>(capacity: nat, n: nat, actions: seq<Action<T>>) {
    IsRun(capacity, Initial(n), actions) && Deadlocked(After(capacity, Initial(n), actions))
  }

  /** An unlimited buffer has no sleeping producers. */
  lemma UnlimitedNeverDeadlocks<T>(n: nat, actions: seq<Action<T>>)
    requires IsRun(0, Initial(n), actions)
    ensures !Deadlocked(After(0, Initial(n), actions))
  {
    InitialInvariant<T>(0, n);
    RunInvariant(0, Initial(n), actions);
  }

  /** A buffer can deadlock exactly when it is bounded and try_pop may be used. */
  lemma TryPopDecides<T(!new)>(capacity: nat, item: T, tryPopAllowed: bool)
    ensures (exists n: nat, actions: seq<Action<T>> ::
               LeadsToDeadlock(capacity, n, actions) && (tryPopAllowed || Avoids(actions)))
            <==> capacity > 0 && tryPopAllowed
  {
    if capacity > 0 && tryPopAllowed {
      var run := TryPopDeadlocks(capacity, item);
      assert LeadsToDeadlock(capacity, 2, run);
    } else {
      forall n: nat, actions: seq<Action<T>> | LeadsToDeadlock(capacity, n, actions)
        ensures !(tryPopAllowed || Avoids(actions))
      {
        if capacity == 0 {
          UnlimitedNeverDeadlocks(n, actions);
        } else if Avoids(actions) {
          NoDeadlock(capacity, n, actions);
        }
      }
    }
  }
}
