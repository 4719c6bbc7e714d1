/** Cross-over of two vectors: both exchange what they hold as of a position. */
module CrossOver {
  import opened Wrappers

  datatype CrossOverError = InvalidPosition | EmptyPointer

  function Min(a: nat, b: nat): nat { if a < b then a else b }

  /** The first vector, continued with what the second holds as of `p`. */
  function Joined<T>(a: seq<T>, b: seq<T>, p: nat): seq<T>
    requires p <= |a| && p <= |b|
  {
    a[..p] + b[p..]
  }

  /** How many items at the front of `s` are accepted. */
  function AcceptedLength<T>(accepts: T -> bool, s: seq<T>): (n: nat)
    ensures n <= |s| && (n < |s| ==> !accepts(s[n]))
    ensures forall k :: 0 <= k < n ==> accepts(s[k])
  {
    if s == [] || !accepts(s[0]) then 0 else 1 + AcceptedLength(accepts, s[1..])
  }

  lemma {:induction false} AllAccepted<T>(accepts: T -> bool, s: seq<T>)
    ensures AcceptedLength(accepts, s) == |s| <==> forall x :: x in s ==> accepts(x)
  {
    if s != [] {
      AllAccepted(accepts, s[1..]);
      assert forall x :: x in s <==> x == s[0] || x in s[1..];
    }
  }

  /** What push_back is asked to take over: the items by which one vector is longer. */
  function Surplus<T>(a: seq<T>, b: seq<T>): seq<T> {
    if |a| > |b| then a[|b|..] else b[|a|..]
  }

  class GVector<T> {
    var items: seq<T>

    /** Items that push_back takes: all of them in a vector of plain data, but no empty pointers
        in a vector of pointers. */
    const accepts: T -> bool

    constructor (accepts: T -> bool)
      ensures items == [] && this.accepts == accepts
    {
      this.accepts := accepts;
      items := [];
    }

    method PushBack(x: T) returns (ok: bool)
      modifies this`items
      ensures ok == accepts(x) && items == if ok then old(items) + [x] else old(items)
    {
      ok := accepts(x);
      if ok { items := items + [x]; }
    }

    /** Takes items over from `source` until one is refused. */
    method TakeOver(source: seq<T>) returns (ok: bool)
      modifies this`items
      ensures var n := AcceptedLength(accepts, source);
              ok == (n == |source|) && items == old(items) + source[..n]
    {
      var i := 0;
      while i < |source|
        invariant 0 <= i <= |source| && items == old(items) + source[..i]
        invariant AcceptedLength(accepts, source) == i + AcceptedLength(accepts, source[i..])
      {
        assert source[i..][1..] == source[i + 1..];
        ok := PushBack(source[i]);
        if !ok { return; }
        i := i + 1;
      }
      ok := true;
    }

    /** The loop that swaps the elements. */
    method SwapElements(cp: GVector<T>, pos: nat, minSize: nat)
      requires minSize == Min(|items|, |cp.items|)
      modifies this`items, cp`items
      ensures items == Swapped(old(items), old(cp.items), Min(pos, minSize), minSize)
      ensures cp.items == Swapped(old(cp.items), old(items), Min(pos, minSize), minSize)
    {
      ghost var a, b := items, cp.items;
      var i := pos;
      while i < minSize
        invariant pos <= i && (i <= minSize || i == pos)
        invariant |items| == |a| && |cp.items| == |b|
        invariant forall k :: 0 <= k < |a| ==> items[k] == if pos <= k < i && k < minSize then b[k] else a[k]
        invariant forall k :: 0 <= k < |b| ==> cp.items[k] == if pos <= k < i && k < minSize then a[k] else b[k]
      {
        var x := items[i];
        items := items[i := cp.items[i]];
        cp.items := cp.items[i := x];
        i := i + 1;
      }
    }

    /** What makes one vector longer than the other moves over. */
    method MoveSurplus(cp: GVector<T>, minSize: nat) returns (ok: bool)
      requires cp.accepts == accepts && minSize == Min(|items|, |cp.items|)
      modifies this`items, cp`items
      ensures var s := old(Surplus(items, cp.items)); ok == (AcceptedLength(accepts, s) == |s|)
      ensures !ok ==> var s := old(Surplus(items, cp.items));
        var taken := s[..AcceptedLength(accepts, s)];
        items == old(items) + (if |old(items)| > minSize then [] else taken) &&
        cp.items == old(cp.items) + (if |old(items)| > minSize then taken else [])
      ensures ok ==> items == old(items)[..minSize] + old(cp.items)[minSize..]
      ensures ok ==> cp.items == old(cp.items)[..minSize] + old(items)[minSize..]
    {
      if |items| > |cp.items| {
        ok := cp.TakeOver(items[|cp.items|..]);
        if !ok { return; }
        items := items[..minSize];
      } else if |cp.items| > |items| {
        ok := TakeOver(cp.items[|items|..]);
        if !ok { return; }
        cp.items := cp.items[..minSize];
      } else {
        ok := true;
      }
    }

    /** With `debug` the position is checked; otherwise a position behind the shorter vector
        exchanges what is behind the shorter vector. A refused item leaves the vectors in between:
        what was taken over is in both. `cp` may be the vector itself. */
    method CrossOver(cp: GVector<T>, pos: nat, debug: bool) returns (error: Option<CrossOverError>)
      requires cp.accepts == accepts
      modifies this`items, cp`items
      ensures error == Some(InvalidPosition) <==> debug && pos >= Min(|old(items)|, |old(cp.items)|)
      ensures error == Some(InvalidPosition) ==> items == old(items) && cp.items == old(cp.items)
      ensures error != Some(InvalidPosition) ==>
        (error == None <==> forall x :: x in old(Surplus(items, cp.items)) ==> accepts(x))
      ensures error == Some(EmptyPointer) ==> var m := Min(|old(items)|, |old(cp.items)|);
        var s := old(Surplus(items, cp.items));
        var taken := s[..AcceptedLength(accepts, s)];
        items == Swapped(old(items), old(cp.items), Min(pos, m), m) + (if |old(items)| > m then [] else taken) &&
        cp.items == Swapped(old(cp.items), old(items), Min(pos, m), m) + (if |old(items)| > m then taken else [])
      ensures error == None ==> var p := Min(pos, Min(|old(items)|, |old(cp.items)|));
        items == Joined(old(items), old(cp.items), p) && cp.items == Joined(old(cp.items), old(items), p)
      ensures error == None ==> |items| == |old(cp.items)| && |cp.items| == |old(items)|
      ensures error == None ==> forall k :: 0 <= k < |items| ==>
        items[k] == if k < pos && k < |old(items)| then old(items)[k] else old(cp.items)[k]
      ensures error == None ==> forall k :: 0 <= k < |cp.items| ==>
        cp.items[k] == if k < pos && k < |old(cp.items)| then old(cp.items)[k] else old(items)[k]
    {
      var minSize := Min(|items|, |cp.items|);
      if debug && pos >= minSize { return Some(InvalidPosition); }
      ghost var a, b := items, cp.items;
      SwapElements(cp, pos, minSize);
      SwappedSurplus(a, b, Min(pos, minSize));
      AllAccepted(accepts, Surplus(a, b));
      var ok := MoveSurplus(cp, minSize);
      if !ok { return Some(EmptyPointer); }
      SwappedThenMoved(a, b, Min(pos, minSize), minSize);
      JoinedAt(a, b, pos);
      JoinedAt(b, a, pos);
      return None;
    }
  }

  /** The elements from `p` to `m` replaced by those of the other vector. */
  function Swapped<T>(a: seq<T>, b: seq<T>, p: nat, m: nat): (r: seq<T>)
    requires p <= m <= |a| && m <= |b|
    ensures |r| == |a| && forall k :: 0 <= k < |a| ==> r[k] == if p <= k < m then b[k] else a[k]
  {
    a[..p] + b[p..m] + a[m..]
  }

  /** What is in front of the position stays, and what is behind it is that of the other vector. */
  lemma JoinedAt<T>(a: seq<T>, b: seq<T>, pos: nat)
    ensures var r := Joined(a, b, Min(pos, Min(|a|, |b|)));
            |r| == |b| && forall k :: 0 <= k < |r| ==> r[k] == if k < pos && k < |a| then a[k] else b[k]
  {
  }

  lemma SwappedSurplus<T>(a: seq<T>, b: seq<T>, p: nat)
    requires p <= Min(|a|, |b|)
    ensures var m := Min(|a|, |b|); Surplus(Swapped(a, b, p, m), Swapped(b, a, p, m)) == Surplus(a, b)
  {
  }

  lemma SwappedThenMoved<T>(a: seq<T>, b: seq<T>, p: nat, m: nat)
    requires p <= m == Min(|a|, |b|)
    ensures Swapped(a, b, p, m)[..m] + Swapped(b, a, p, m)[m..] == Joined(a, b, p)
    ensures Swapped(b, a, p, m)[..m] + Swapped(a, b, p, m)[m..] == Joined(b, a, p)
  {
    assert Swapped(a, b, p, m)[..m] == a[..p] + b[p..m] && Swapped(b, a, p, m)[m..] == b[m..];
    assert Swapped(b, a, p, m)[..m] == b[..p] + a[p..m] && Swapped(a, b, p, m)[m..] == a[m..];
    assert b[p..m] + b[m..] == b[p..];
    assert a[p..m] + a[m..] == a[p..];
  }

  // ----- what the exchange keeps -----

  /** Nothing is lost and nothing is doubled. */
  lemma Conserved<T>(a: seq<T>, b: seq<T>, p: nat)
    requires p <= Min(|a|, |b|)
    ensures multiset(Joined(a, b, p)) + multiset(Joined(b, a, p)) == multiset(a) + multiset(b)
    ensures |Joined(a, b, p)| == |b| && |Joined(b, a, p)| == |a|
  {
    assert a == a[..p] + a[p..] && b == b[..p] + b[p..];
    assert multiset(Joined(a, b, p)) == multiset(a[..p]) + multiset(b[p..]);
    assert multiset(Joined(b, a, p)) == multiset(b[..p]) + multiset(a[p..]);
  }

  /** A second cross-over at the same position undoes the first. */
  lemma Undone<T>(a: seq<T>, b: seq<T>, p: nat)
    requires p <= Min(|a|, |b|)
    ensures var c, d := Joined(a, b, p), Joined(b, a, p);
            p <= Min(|c|, |d|) && Joined(c, d, p) == a && Joined(d, c, p) == b
  {
    var c, d := Joined(a, b, p), Joined(b, a, p);
    assert c[..p] == a[..p] && d[p..] == a[p..] && d[..p] == b[..p] && c[p..] == b[p..];
  }
}
