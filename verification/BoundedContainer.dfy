/** The container of GBoundedBufferT, with the critical sections as methods. */
module BoundedContainer {
  import opened BoundedBuffer
  import opened Wrappers

  /** The container, with the critical sections of the calls as methods. Each section is tied to
      the critical action of a thread `i` that makes the call. */
  class Container<T> {
    var items: seq<T>
    const capacity: nat

    constructor (capacity: nat, ghost threads: nat)
      ensures this.capacity == capacity && Represents(Initial(threads))
    {
      items := [];
      this.capacity := capacity;
    }

    ghost predicate Represents(s: State<T>)
      reads this
    {
      items == s.container
    }

    /** try_push_copy and try_push_move while the mutex is held. */
    method TryPushSection(item: T, ghost s: State<T>, ghost i: nat) returns (success: bool)
      requires Represents(s) && i < |s.threads| && s.threads[i].Holding? && s.threads[i].call == Call.TryPush(item)
      modifies this
      ensures var t := DoCritical(capacity, s, i);
              Represents(t) && t.threads[i] == if success then Notifying(NotEmpty, Pushed(i, item)) else Idle
      ensures success <==> capacity == 0 || |old(items)| < capacity
      ensures items == if success then [item] + old(items) else old(items)
    {
      if capacity > 0 && |items| >= capacity { return false; }
      items := [item] + items;
      return true;
    }

    /** The predicate of the waiting pushes. */
    predicate HasRoom()
      reads this
    {
      capacity == 0 || |items| < capacity
    }

    /** The waiting pushes once their predicate holds. */
    method PushSection(item: T, ghost s: State<T>, ghost i: nat)
      requires Represents(s) && i < |s.threads| && s.threads[i].Holding?
      requires s.threads[i].call == Call.PushAndBlock(item) || s.threads[i].call == Call.PushAndWait(item)
      requires MayProceed(capacity, items, s.threads[i].call)
      modifies this
      ensures var t := DoCritical(capacity, s, i); Represents(t) && t.threads[i] == Notifying(NotEmpty, Pushed(i, item))
      ensures items == [item] + old(items) && (capacity > 0 ==> |items| <= capacity)
    {
      items := [item] + items;
    }

    /** try_pop_copy and try_pop_move while the mutex is held. */
    method TryPopSection(ghost s: State<T>, ghost i: nat) returns (popped: Option<T>)
      requires Represents(s) && i < |s.threads| && s.threads[i].Holding? && s.threads[i].call.TryPop?
      modifies this
      ensures var t := DoCritical(capacity, s, i);
              Represents(t) &&
              t.threads[i] == if popped.Some? then Notifying(NotEmpty, Popped(i, popped.value, true)) else Idle
      ensures popped.None? <==> old(items) == []
      ensures old(items) == if popped.Some? then items + [popped.value] else items
    {
      if |items| == 0 { return None; }
      popped := Some(items[|items| - 1]);
      items := items[..|items| - 1];
    }

    /** The predicate of the waiting pops. */
    predicate HasItems()
      reads this
    {
      |items| > 0
    }

    /** The waiting pops once their predicate holds. */
    method PopSection(ghost s: State<T>, ghost i: nat) returns (item: T)
      requires Represents(s) && i < |s.threads| && s.threads[i].Holding?
      requires (s.threads[i].call.PopAndBlock? || s.threads[i].call.PopAndWait?) && |items| > 0
      modifies this
      ensures var t := DoCritical(capacity, s, i);
        Represents(t) && t.threads[i] == Notifying(NotFull, Popped(i, item, false))
      ensures old(items) == items + [item]
    {
      item := items[|items| - 1];
      items := items[..|items| - 1];
    }

    /** The critical section of a call: the predicate of a waiting call comes first. */
    method Section(c: Call<T>, ghost s: State<T>, ghost i: nat)
      requires Represents(s) && i < |s.threads| && s.threads[i].Holding? && s.threads[i].call == c
      modifies this
      ensures Represents(DoCritical(capacity, s, i))
    {
      match c {
        case TryPush(item) => var success := TryPushSection(item, s, i);
        case TryPop => var popped := TryPopSection(s, i);
        case PushAndBlock(item) => if HasRoom() { PushSection(item, s, i); }
        case PushAndWait(item) => if HasRoom() { PushSection(item, s, i); }
        case PopAndBlock => if HasItems() { var item := PopSection(s, i); }
        case PopAndWait => if HasItems() { var item := PopSection(s, i); }
      }
    }
  }

  /** The sections, entered in the order of any run, keep the container that of the system. */
  method Perform<T>(buffer: Container<T>, threads: nat, actions: seq<Action<T>>)
    requires buffer.Represents(Initial(threads)) && IsRun(buffer.capacity, Initial(threads), actions)
    modifies buffer
    ensures buffer.Represents(After(buffer.capacity, Initial(threads), actions))
  {
    var s := Initial<T>(threads);
    for k := 0 to |actions|
      invariant buffer.Represents(s) && IsRun(buffer.capacity, s, actions[k..])
      invariant After(buffer.capacity, s, actions[k..]) == After(buffer.capacity, Initial(threads), actions)
    {
      var a := actions[k];
      assert actions[k..][0] == a && actions[k..][1..] == actions[k + 1..];
      if a.Critical? {
        buffer.Section(s.threads[a.thread].call, s, a.thread);
      }
      s := Apply(buffer.capacity, s, a);
    }
  }
}
