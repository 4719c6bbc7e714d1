/** Walking over the items of a vector of pointers that have a derived type. `cast` is the dynamic
    cast, with None for a pointer that comes out empty. */
module ConversionIterator {
  import opened Wrappers

  /** The items that can be cast, cast. */
  function View<T, D>(items: seq<T>, cast: T -> Option<D>): seq<D> {
    if items == [] then []
    else (match cast(items[0]) case Some(d) => [d] case None => []) + View(items[1..], cast)
  }

  class ConversionIterator<T, D> {
    const items: seq<T>
    const cast: T -> Option<D>
    var pos: nat
    var end: nat
    var valid: Option<D>

    constructor (items: seq<T>, cast: T -> Option<D>, end: nat)
      requires end <= |items|
      ensures this.items == items && this.cast == cast && this.end == end
    {
      this.items, this.cast, this.end := items, cast, end;
    }

    /** Within bounds, and ready to be dereferenced unless at the end. */
    ghost predicate Valid()
      reads this
    {
      pos <= end <= |items| && (pos < end ==> valid == cast(items[pos]) && valid.Some?)
    }

    /** What is still to be visited. */
    ghost function ToVisit(): seq<D>
      requires Valid()
      reads this
    {
      View(items[pos..end], cast)
    }

    method Assign(current: nat)
      requires current <= end <= |items|
      modifies this`pos, this`valid
      ensures Valid() && current <= pos && ToVisit() == View(items[current..end], cast)
      ensures forall k :: current <= k < pos ==> cast(items[k]) == None
    {
      pos := current;
      while pos != end
        invariant current <= pos <= end
        invariant View(items[pos..end], cast) == View(items[current..end], cast)
        invariant forall k :: current <= k < pos ==> cast(items[k]) == None
        decreases end - pos
      {
        valid := cast(items[pos]);
        if valid.Some? { break; }
        SkipOne(items, cast, pos, end);
        pos := pos + 1;
      }
    }

    method NotEqual(other: nat) returns (r: bool)
      ensures r == (pos != other)
    {
      r := pos != other;
    }

    method Dereference() returns (r: D)
      requires Valid() && pos != end
      ensures ToVisit() != [] && r == ToVisit()[0]
    {
      r := valid.value;
      SkipOne(items, cast, pos, end);
    }

    /** At the end nothing happens. */
    method Increment()
      requires Valid()
      modifies this`pos, this`valid
      ensures Valid()
      ensures if old(pos) == end then pos == end else pos > old(pos) && ToVisit() == old(ToVisit())[1..]
    {
      ghost var start := pos;
      if pos != end { SkipOne(items, cast, pos, end); }
      while pos != end
        invariant start <= pos <= end
        invariant pos == start && start < end ==> valid == cast(items[pos]) && valid.Some?
        invariant pos > start ==> View(items[pos..end], cast) == View(items[start + 1..end], cast)
        invariant start < pos < end ==> cast(items[pos]) == None
        decreases end - pos
      {
        ghost var before := pos;
        if before > start { SkipOne(items, cast, before, end); }
        pos := pos + 1;
        if pos != end {
          valid := cast(items[pos]);
          if valid.Some? { break; }
        }
      }
    }
  }

  lemma SkipOne<T, D>(items: seq<T>, cast: T -> Option<D>, pos: nat, end: nat)
    requires pos < end <= |items|
    ensures View(items[pos..end], cast) ==
            (match cast(items[pos]) case Some(d) => [d] case None => []) + View(items[pos + 1..end], cast)
  {
    assert items[pos..end][1..] == items[pos + 1..end];
  }

  // ----- the whole walk -----

  lemma MoveOne<D>(visited: seq<D>, left: seq<D>)
    requires left != []
    ensures (visited + [left[0]]) + left[1..] == visited + left
  {
  }

  /** A walk from a position to the end of the vector. */
  method Walk<T, D>(items: seq<T>, cast: T -> Option<D>, start: nat) returns (visited: seq<D>)
    requires start <= |items|
    ensures visited == View(items[start..], cast)
  {
    var it := new ConversionIterator(items, cast, |items|);
    it.Assign(start);
    assert items[start..|items|] == items[start..];
    visited := [];
    ghost var left := it.ToVisit();
    var more := it.NotEqual(|items|);
    while more
      invariant it.Valid() && it.items == items && it.cast == cast && it.end == |items|
      invariant more == (it.pos != |items|) && left == it.ToVisit()
      invariant visited + left == View(items[start..], cast)
      decreases |items| - it.pos
    {
      var d := it.Dereference();
      MoveOne(visited, left);
      visited := visited + [d];
      left := left[1..];
      it.Increment();
      more := it.NotEqual(|items|);
    }
  }

  method AttachViewTo<T, D>(items: seq<T>, cast: T -> Option<D>, target: seq<D>) returns (r: seq<D>)
    ensures r == target + View(items, cast)
  {
    r := target;
    for i := 0 to |items|
      invariant r + View(items[i..], cast) == target + View(items, cast)
    {
      SkipOne(items, cast, i, |items|);
      var derived := cast(items[i]);
      if derived.Some? { r := r + [derived.value]; }
    }
  }

  // ----- what the view is -----

  /** The places of the items that can be cast, counted from `from`. */
  function Places<T, D>(items: seq<T>, cast: T -> Option<D>, from: nat): seq<nat> {
    if items == [] then []
    else (if cast(items[0]).Some? then [from] else []) + Places(items[1..], cast, from + 1)
  }

  /** The view holds every item that can be cast, once and in order, and no other. */
  lemma {:induction false} ViewExact<T, D>(items: seq<T>, cast: T -> Option<D>, from: nat)
    ensures var p := Places(items, cast, from);
            |View(items, cast)| == |p| &&
            (forall k :: 0 <= k < |p| ==>
              from <= p[k] < from + |items| && cast(items[p[k] - from]) == Some(View(items, cast)[k])) &&
            (forall k, l :: 0 <= k < l < |p| ==> p[k] < p[l]) &&
            (forall i :: from <= i < from + |items| && cast(items[i - from]).Some? ==> i in p)
  {
    if items != [] {
      ViewExact(items[1..], cast, from + 1);
      var p, q := Places(items, cast, from), Places(items[1..], cast, from + 1);
      forall i | from <= i < from + |items| && cast(items[i - from]).Some? ensures i in p {
        if i > from {
          assert items[i - from] == items[1..][i - (from + 1)];
          assert i in q;
        }
      }
    }
  }
}
