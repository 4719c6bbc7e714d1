/** What becomes of a single call, in any run of the buffer's threads. */
module BufferCalls {
  import opened BoundedBuffer
  import opened Wrappers

  // ----- the critical section -----

  /** A push puts its item at the front if there is room. Without room, try_push and a push that
      has timed out give up, and any other push goes to sleep. */
  lemma PushLaw<T>(capacity: nat, s: State<T>, i: nat, item: T)
    requires Enabled(s, Critical(i))
    requires var c := s.threads[i].call;
             c == Call.TryPush(item) || c == PushAndWait(item) || c == PushAndBlock(item)
    ensures var c, t := s.threads[i].call, Apply(capacity, s, Critical(i));
            t.lock == None && t.threads == s.threads[i := t.threads[i]] && t.returned == s.returned &&
            if capacity == 0 || |s.container| < capacity then
              t.container == [item] + s.container && t.history == s.history + [Pushed(i, item)] &&
              t.threads[i] == Notifying(NotEmpty, Pushed(i, item))
            else
              t.container == s.container && t.history == s.history &&
              t.threads[i] == if c.TryPush? || (c.PushAndWait? && s.threads[i].expired) then Idle else Asleep(c)
  {
  }

  /** A pop takes the item at the back if there is one. On an empty buffer, try_pop and a pop that
      has timed out give up, and any other pop goes to sleep. */
  lemma PopLaw<T>(capacity: nat, s: State<T>, i: nat)
    requires Enabled(s, Critical(i))
    requires var c := s.threads[i].call; c.TryPop? || c.PopAndWait? || c.PopAndBlock?
    ensures var c, t := s.threads[i].call, Apply(capacity, s, Critical(i));
            t.lock == None && t.threads == s.threads[i := t.threads[i]] && t.returned == s.returned &&
            if s.container != [] then
              var event := Popped(i, s.container[|s.container| - 1], c.TryPop?);
              s.container == t.container + [event.item] && t.history == s.history + [event] &&
              t.threads[i] == Notifying(if c.TryPop? then NotEmpty else NotFull, event)
            else
              t.container == s.container && t.history == s.history &&
              t.threads[i] == if c.TryPop? || (c.PopAndWait? && s.threads[i].expired) then Idle else Asleep(c)
  {
  }

  // ----- the course of a call -----

  /** The event is a success of the call by thread `i`. */
  ghost predicate Reports<T>(e: Event<T>, i: nat, c: Call<T>) {
    e.thread == i &&
    match c
    case PushAndBlock(item) => e == Pushed(i, item)
    case PushAndWait(item) => e == Pushed(i, item)
    case TryPush(item) => e == Pushed(i, item)
    case PopAndBlock => e.Popped? && !e.tried
    case PopAndWait => e.Popped? && !e.tried
    case TryPop => e.Popped? && e.tried
  }

  /** How far the call `c` of thread `i` has come; `own` are the thread's events before. */
  ghost predicate Progress<T>(s: State<T>, i: nat, c: Call<T>, own: seq<Event<T>>, timedOut: bool) {
    i < |s.threads| && (timedOut ==> c.PushAndWait? || c.PopAndWait?) &&
    var now := Own(s.history, i);
    match s.threads[i]
    case Idle => (now == own && (c.TryPush? || c.TryPop? || timedOut)) || Succeeded(now, i, c, own)
    case Entering(d) => d == c && now == own && !timedOut
    case Asleep(d) => d == c && now == own && !timedOut && !c.TryPush? && !c.TryPop?
    case Awake(d, expired) => d == c && now == own && expired == timedOut
    case Holding(d, _, expired) => d == c && now == own && expired == timedOut
    case Notifying(_, e) => now == own + [e] && Reports(e, i, c)
  }

  ghost predicate Succeeded<T>(now: seq<Event<T>>, i: nat, c: Call<T>, own: seq<Event<T>>) {
    |now| == |own| + 1 && now[..|own|] == own && Reports(now[|own|], i, c)
  }

  lemma OwnAppend<T>(h: seq<Event<T>>, e: Event<T>, i: nat)
    ensures Own(h + [e], i) == Own(h, i) + if e.thread == i then [e] else []
  {
    assert (h + [e])[..|h|] == h;
  }

  lemma OthersCritical<T>(capacity: nat, s: State<T>, j: nat, i: nat)
    requires Enabled(s, Critical(j)) && i != j && i < |s.threads|
    ensures var t := Apply(capacity, s, Critical(j));
            t.threads[i] == s.threads[i] && Own(t.history, i) == Own(s.history, i)
  {
    if MayProceed(capacity, s.container, s.threads[j].call) {
      OwnAppend(s.history, EventOf(s.container, j, s.threads[j].call), i);
    }
  }

  lemma OwnCritical<T>(capacity: nat, s: State<T>, i: nat, c: Call<T>, own: seq<Event<T>>, timedOut: bool)
    requires Enabled(s, Critical(i)) && Progress(s, i, c, own, timedOut)
    ensures Progress(Apply(capacity, s, Critical(i)), i, c, own, timedOut)
  {
    if MayProceed(capacity, s.container, c) {
      OwnAppend(s.history, EventOf(s.container, i, c), i);
    }
  }

  /** Whatever happens, the call only goes on as it may. */
  lemma ProgressStep<T>(capacity: nat, s: State<T>, a: Action<T>, i: nat, c: Call<T>, own: seq<Event<T>>,
      timedOut: bool)
    requires Progress(s, i, c, own, timedOut) && Enabled(s, a) && !(a.Invoke? && a.thread == i)
    ensures Progress(Apply(capacity, s, a), i, c, own, timedOut || a == TimeOut(i))
  {
    if a.Critical? {
      if a.thread == i {
        OwnCritical(capacity, s, i, c, own, timedOut);
      } else {
        OthersCritical(capacity, s, a.thread, i);
      }
    } else {
      assert Apply(capacity, s, a).history == s.history;
    }
  }

  lemma {:induction false} ProgressRun<T>(capacity: nat, s: State<T>, more: seq<Action<T>>, i: nat, c: Call<T>,
      own: seq<Event<T>>, timedOut: bool)
    requires Progress(s, i, c, own, timedOut) && IsRun(capacity, s, more)
    requires forall k :: 0 <= k < |more| ==> !(more[k].Invoke? && more[k].thread == i)
    ensures Progress(After(capacity, s, more), i, c, own,
                     timedOut || exists k :: 0 <= k < |more| && more[k] == TimeOut(i))
    decreases |more|
  {
    if more != [] {
      ProgressStep(capacity, s, more[0], i, c, own, timedOut);
      ProgressRun(capacity, Apply(capacity, s, more[0]), more[1..], i, c, own, timedOut || more[0] == TimeOut(i));
      assert forall k :: 0 < k < |more| ==> more[k] == more[1..][k - 1];
      if k :| 0 <= k < |more| - 1 && more[1..][k] == TimeOut(i) { assert more[k + 1] == TimeOut(i); }
    }
  }

  lemma {:induction false} RunSplits<T>(capacity: nat, s: State<T>, a: seq<Action<T>>, b: seq<Action<T>>)
    requires IsRun(capacity, s, a + b)
    ensures IsRun(capacity, s, a) && IsRun(capacity, After(capacity, s, a), b)
    ensures After(capacity, s, a + b) == After(capacity, After(capacity, s, a), b)
    decreases |a|
  {
    if a == [] {
      assert a + b == b;
    } else {
      assert (a + b)[0] == a[0] && (a + b)[1..] == a[1..] + b;
      RunSplits(capacity, Apply(capacity, s, a[0]), a[1..], b);
    }
  }

  /** The course of a call up to the next call of its thread. */
  lemma CallCourse<T>(capacity: nat, n: nat, before: seq<Action<T>>, i: nat, c: Call<T>, more: seq<Action<T>>)
    requires IsRun(capacity, Initial(n), before + ([Invoke(i, c)] + more))
    requires forall k :: 0 <= k < |more| ==> !(more[k].Invoke? && more[k].thread == i)
    ensures IsRun(capacity, Initial(n), before)
    ensures Progress(After(capacity, Initial(n), before + ([Invoke(i, c)] + more)), i, c,
                     Own(After(capacity, Initial(n), before).history, i),
                     exists k :: 0 <= k < |more| && more[k] == TimeOut(i))
  {
    RunSplits(capacity, Initial(n), before, [Invoke(i, c)] + more);
    var s := After(capacity, Initial(n), before);
    assert ([Invoke(i, c)] + more)[1..] == more;
    ProgressRun(capacity, Apply(capacity, s, Invoke(i, c)), more, i, c, Own(s.history, i), false);
  }

  /** When a thread is back from a call, it has succeeded once, as the history shows, or it has
      done nothing; the latter only in a call that does not wait, or after a time-out. A call that
      blocks comes back with a success only. */
  lemma CallEnds<T>(capacity: nat, n: nat, before: seq<Action<T>>, i: nat, c: Call<T>, more: seq<Action<T>>)
    requires IsRun(capacity, Initial(n), before + ([Invoke(i, c)] + more))
    requires forall k :: 0 <= k < |more| ==> !(more[k].Invoke? && more[k].thread == i)
    requires var s := After(capacity, Initial(n), before + ([Invoke(i, c)] + more));
             i < |s.threads| && s.threads[i].Idle?
    ensures IsRun(capacity, Initial(n), before)
    ensures var own := Own(After(capacity, Initial(n), before).history, i);
            var now := Own(After(capacity, Initial(n), before + ([Invoke(i, c)] + more)).history, i);
            (now == own && (c.TryPush? || c.TryPop? ||
             ((c.PushAndWait? || c.PopAndWait?) && exists k :: 0 <= k < |more| && more[k] == TimeOut(i)))) ||
            (|now| == |own| + 1 && now[..|own|] == own && now[|own|].thread == i &&
             match c
             case PushAndBlock(item) => now[|own|] == Pushed(i, item)
             case PushAndWait(item) => now[|own|] == Pushed(i, item)
             case TryPush(item) => now[|own|] == Pushed(i, item)
             case PopAndBlock => now[|own|].Popped? && !now[|own|].tried
             case PopAndWait => now[|own|].Popped? && !now[|own|].tried
             case TryPop => now[|own|].Popped? && now[|own|].tried)
  {
    CallCourse(capacity, n, before, i, c, more);
  }

  /** From a time-out to the next call of its thread, the thread never sleeps again, and its next
      critical section ends the call: with a success, or leaving everything as it is. */
  lemma TimeOutEndsCall<T>(capacity: nat, n: nat, before: seq<Action<T>>, i: nat, c: Call<T>, more: seq<Action<T>>)
    requires IsRun(capacity, Initial(n), before + ([Invoke(i, c)] + more))
    requires forall k :: 0 <= k < |more| ==> !(more[k].Invoke? && more[k].thread == i)
    requires exists k :: 0 <= k < |more| && more[k] == TimeOut(i)
    ensures var s := After(capacity, Initial(n), before + ([Invoke(i, c)] + more));
            i < |s.threads| && !s.threads[i].Asleep? && !s.threads[i].Entering? &&
            (Enabled(s, Critical(i)) ==>
               var t := Apply(capacity, s, Critical(i));
               t.threads[i].Notifying? ||
               (t.threads[i].Idle? && t.container == s.container && t.history == s.history))
  {
    CallCourse(capacity, n, before, i, c, more);
  }

  // ----- calls that do not wait for ever -----

  /** Who owns the mutex can leave its critical section. */
  lemma FreeTheLock<T>(capacity: nat, s: State<T>, i: nat) returns (more: seq<Action<T>>)
    requires Invariant(capacity, s) && i < |s.threads| && !s.threads[i].Holding?
    ensures IsRun(capacity, s, more)
    ensures var t := After(capacity, s, more);
            t.lock == None && |t.threads| == |s.threads| && t.threads[i] == s.threads[i] && Invariant(capacity, t)
  {
    if s.lock == None {
      more := [];
    } else {
      var a := Critical(s.lock.value);
      StepInvariant(capacity, s, a);
      more := [a];
      assert [a][1..] == [];
    }
  }

  lemma NotifyOne<T>(capacity: nat, s: State<T>, i: nat) returns (more: seq<Action<T>>)
    requires Invariant(capacity, s) && i < |s.threads| && s.threads[i].Notifying?
    ensures IsRun(capacity, s, more) && After(capacity, s, more).threads != []
    ensures i < |After(capacity, s, more).threads| && After(capacity, s, more).threads[i].Idle?
  {
    var c := s.threads[i].condition;
    var a := Notify(i, None);
    if j :| 0 <= j < |s.threads| && SleepsOn(s.threads[j], c) {
      a := Notify(i, Some(j));
    }
    more := [a];
    assert [a][1..] == [];
  }

  /** The steps of one thread from its critical section on. */
  lemma FinishHolding<T>(capacity: nat, s: State<T>, i: nat) returns (more: seq<Action<T>>)
    requires Invariant(capacity, s) && i < |s.threads| && s.threads[i].Holding?
    requires var p := s.threads[i];
             p.call.TryPush? || p.call.TryPop? || ((p.call.PushAndWait? || p.call.PopAndWait?) && p.expired)
    ensures IsRun(capacity, s, more)
    ensures i < |After(capacity, s, more).threads| && After(capacity, s, more).threads[i].Idle?
  {
    var a := Critical(i);
    var t := Apply(capacity, s, a);
    StepInvariant(capacity, s, a);
    var rest := [];
    if t.threads[i].Notifying? {
      rest := NotifyOne(capacity, t, i);
    }
    more := [a] + rest;
    RunStarts(capacity, s, a, rest);
  }

  lemma FinishAwake<T>(capacity: nat, s: State<T>, i: nat) returns (more: seq<Action<T>>)
    requires Invariant(capacity, s) && i < |s.threads| && (s.threads[i].Entering? || s.threads[i].Awake?)
    requires var p := s.threads[i];
             p.call.TryPush? || p.call.TryPop? ||
             ((p.call.PushAndWait? || p.call.PopAndWait?) && p.Awake? && p.expired)
    ensures IsRun(capacity, s, more)
    ensures i < |After(capacity, s, more).threads| && After(capacity, s, more).threads[i].Idle?
  {
    var first := FreeTheLock(capacity, s, i);
    var t := After(capacity, s, first);
    var a := Acquire(i);
    StepInvariant(capacity, t, a);
    var rest := FinishHolding(capacity, Apply(capacity, t, a), i);
    RunStarts(capacity, t, a, rest);
    RunsCompose(capacity, s, first, [a] + rest);
    more := first + ([a] + rest);
  }

  lemma FinishAsleep<T>(capacity: nat, s: State<T>, i: nat) returns (more: seq<Action<T>>)
    requires Invariant(capacity, s) && i < |s.threads| && s.threads[i].Asleep?
    requires s.threads[i].call.PushAndWait? || s.threads[i].call.PopAndWait?
    ensures IsRun(capacity, s, more)
    ensures i < |After(capacity, s, more).threads| && After(capacity, s, more).threads[i].Idle?
  {
    var a := TimeOut(i);
    StepInvariant(capacity, s, a);
    var rest := FinishAwake(capacity, Apply(capacity, s, a), i);
    RunStarts(capacity, s, a, rest);
    more := [a] + rest;
  }

  /** A timed call that owns the mutex ends at once, or after a sleep and a time-out. */
  lemma FinishTimed<T>(capacity: nat, s: State<T>, i: nat) returns (more: seq<Action<T>>)
    requires Invariant(capacity, s) && i < |s.threads| && s.threads[i].Holding?
    requires s.threads[i].call.PushAndWait? || s.threads[i].call.PopAndWait?
    ensures IsRun(capacity, s, more)
    ensures i < |After(capacity, s, more).threads| && After(capacity, s, more).threads[i].Idle?
  {
    var a := Critical(i);
    var t := Apply(capacity, s, a);
    StepInvariant(capacity, s, a);
    var rest := [];
    if t.threads[i].Notifying? {
      rest := NotifyOne(capacity, t, i);
    } else if t.threads[i].Asleep? {
      rest := FinishAsleep(capacity, t, i);
    }
    RunStarts(capacity, s, a, rest);
    more := [a] + rest;
  }

  lemma FinishOutside<T>(capacity: nat, s: State<T>, i: nat) returns (more: seq<Action<T>>)
    requires Invariant(capacity, s) && i < |s.threads| && (s.threads[i].Entering? || s.threads[i].Awake?)
    requires s.threads[i].call.PushAndWait? || s.threads[i].call.PopAndWait?
    ensures IsRun(capacity, s, more)
    ensures i < |After(capacity, s, more).threads| && After(capacity, s, more).threads[i].Idle?
  {
    var first := FreeTheLock(capacity, s, i);
    var t := After(capacity, s, first);
    var a := Acquire(i);
    StepInvariant(capacity, t, a);
    var rest := FinishTimed(capacity, Apply(capacity, t, a), i);
    RunStarts(capacity, t, a, rest);
    RunsCompose(capacity, s, first, [a] + rest);
    more := first + ([a] + rest);
  }

  /** In every state of every run, a call that does not wait, or not for ever, can come to its end,
      whatever the other threads have done so far. */
  lemma LimitedCallCanEnd<T>(capacity: nat, n: nat, actions: seq<Action<T>>, i: nat) returns (more: seq<Action<T>>)
    requires IsRun(capacity, Initial(n), actions)
    requires var s := After(capacity, Initial(n), actions);
             i < |s.threads| && !s.threads[i].Idle? && !s.threads[i].Notifying? &&
             !s.threads[i].call.PushAndBlock? && !s.threads[i].call.PopAndBlock?
    ensures IsRun(capacity, Initial(n), actions + more)
    ensures var t := After(capacity, Initial(n), actions + more); i < |t.threads| && t.threads[i].Idle?
  {
    var s := After(capacity, Initial(n), actions);
    InitialInvariant<T>(capacity, n);
    RunInvariant(capacity, Initial(n), actions);
    var c := s.threads[i].call;
    if c.TryPush? || c.TryPop? {
      if s.threads[i].Holding? {
        more := FinishHolding(capacity, s, i);
      } else {
        more := FinishAwake(capacity, s, i);
      }
    } else if s.threads[i].Holding? {
      more := FinishTimed(capacity, s, i);
    } else if s.threads[i].Asleep? {
      more := FinishAsleep(capacity, s, i);
    } else {
      more := FinishOutside(capacity, s, i);
    }
    RunsCompose(capacity, Initial(n), actions, more);
  }
}
