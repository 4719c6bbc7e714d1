/** Copying containers of smart pointers so that the copies share no object with the originals. */
module DeepCopy {

  /** What can go wrong: access to an empty pointer, and in debug mode the exception about loading
      an object from itself. */
  datatype Failure = NoFailure | NullAccess | SameObject

  /** An object with the load and clone functions of the library; its state is `content`. */
  class Cloneable<C> {
    var content: C

    constructor (content: C)
      ensures this.content == content
    {
      this.content := content;
    }

    method Load(other: Cloneable<C>, debug: bool) returns (thrown: bool)
      modifies this
      ensures thrown <==> debug && other == this
      ensures content == old(other.content)
    {
      if debug && other == this { return true; }
      content := other.content;
      return false;
    }

    method Clone() returns (r: Cloneable<C>)
      ensures fresh(r) && r.content == content
    {
      r := new Cloneable(content);
    }
  }

  type Pointers<C> = seq<Cloneable?<C>>

  class PtrVector<C> {
    var items: Pointers<C>

    constructor ()
      ensures items == []
    {
      items := [];
    }
  }

  /** The objects that the pointers hold. */
  ghost function Objects<C>(p: Pointers<C>): set<object> {
    set x: Cloneable?<C> | x in p && x != null
  }

  /** No object occurs twice. */
  ghost predicate Distinct<C>(p: Pointers<C>) {
    forall i, j :: 0 <= i < j < |p| && p[i] != null ==> p[i] != p[j]
  }

  ghost predicate Disjoint<C>(p: Pointers<C>, q: Pointers<C>) {
    forall i, j :: 0 <= i < |p| && 0 <= j < |q| && p[i] != null ==> p[i] != q[j]
  }

  /** The targets are different objects and none of them is a source. */
  ghost predicate Separate<C>(from: Pointers<C>, to: Pointers<C>) { Distinct(to) && Disjoint(to, from) }

  /** Position by position `to` is empty where `from` is, and otherwise has the same content. */
  ghost predicate SameContent<C>(from: Pointers<C>, to: Pointers<C>)
    reads Objects(from), Objects(to)
  {
    |to| == |from| &&
    forall i :: 0 <= i < |from| ==>
      (to[i] == null <==> from[i] == null) && (from[i] != null ==> to[i].content == from[i].content)
  }

  ghost predicate HasEmpty<C>(p: Pointers<C>) { exists i :: 0 <= i < |p| && p[i] == null }

  /** Some object would be loaded from itself. */
  ghost predicate HasSelf<C>(from: Pointers<C>, kept: Pointers<C>) {
    exists i :: 0 <= i < |from| && i < |kept| && kept[i] != null && kept[i] == from[i]
  }

  // ----- one pointer -----

  method CopyCloneableSmartPointer<C>(from: Cloneable?<C>, to: Cloneable?<C>, debug: bool)
    returns (r: Cloneable?<C>, thrown: bool)
    modifies to
    ensures thrown <==> debug && from != null && from == to
    ensures r == null <==> from == null
    ensures from != null && to != null ==> r == to && to.content == old(from.content)
    ensures from != null && to == null ==> fresh(r) && r.content == from.content
    ensures from == null && to != null ==> to.content == old(to.content)
  {
    thrown := false;
    if from == null {
      r := null;
    } else if to == null {
      r := from.Clone();
    } else {
      thrown := to.Load(from, debug);
      r := to;
    }
  }

  // ----- a container -----

  /** The targets that are loaded into. The others are replaced by new objects, emptied, or
      dropped. */
  ghost function Kept<C>(from: Pointers<C>, to: Pointers<C>): Pointers<C> {
    seq(if |from| < |to| then |from| else |to|,
        i requires 0 <= i < |from| && i < |to| => if from[i] == null then null else to[i])
  }

  ghost predicate KeptUpTo<C>(from: Pointers<C>, to: Pointers<C>, kept: Pointers<C>, size: nat)
    requires size <= |from| && size <= |to|
  {
    |kept| == size && forall i :: 0 <= i < size ==> kept[i] == if from[i] == null then null else to[i]
  }

  /** Where one object is loaded into twice, both sources have the same content. */
  ghost predicate Agreeing<C>(from: Pointers<C>, kept: Pointers<C>)
    reads Objects(from)
  {
    forall i, j :: 0 <= i < j < |kept| && j < |from| && kept[i] != null && kept[i] == kept[j] ==>
      from[i] != null && from[j] != null ==> from[i].content == from[j].content
  }

  /** The object whose first content `x` holds once the first `n` targets have been loaded, one after
      the other: a target that is a later source hands on what it was loaded with. */
  ghost function Origin<C>(from: Pointers<C>, kept: Pointers<C>, n: nat, x: Cloneable<C>): (o: Cloneable<C>)
    requires n <= |from| && n <= |kept|
    ensures o == x || o in from
  {
    if n == 0 then x
    else if kept[n - 1] == x && from[n - 1] != null then Origin(from, kept, n - 1, from[n - 1])
    else Origin(from, kept, n - 1, x)
  }

  /** In the end every target holds what its source holds then: a target that is loaded into by
      its origin, a new one because its source does not change any more. */
  ghost predicate Settled<C>(from: Pointers<C>, kept: Pointers<C>)
    requires |kept| <= |from|
    reads Objects(from), Objects(kept)
  {
    forall i :: 0 <= i < |kept| && from[i] != null ==> SettledAt(from, kept, i)
  }

  ghost predicate SettledAt<C>(from: Pointers<C>, kept: Pointers<C>, i: nat)
    requires |kept| <= |from| && i < |kept| && from[i] != null
    reads Objects(from), Objects(kept)
  {
    var own := if kept[i] != null then Origin(from, kept, |kept|, kept[i]) else Origin(from, kept, i, from[i]);
    own.content == Origin(from, kept, |kept|, from[i]).content
  }

  /** A source that is no target keeps its content. */
  lemma {:induction false} SourceIsOrigin<C>(from: Pointers<C>, kept: Pointers<C>, n: nat, x: Cloneable<C>)
    requires n <= |from| && n <= |kept| && forall i :: 0 <= i < n ==> kept[i] != x
    ensures Origin(from, kept, n, x) == x
  {
    if n > 0 { SourceIsOrigin(from, kept, n - 1, x); }
  }

  /** Among targets that are no sources, the last source of an object decides. */
  lemma {:induction false} LastSource<C>(from: Pointers<C>, kept: Pointers<C>, n: nat, i: nat) returns (j: nat)
    requires Disjoint(kept, from) && n <= |kept| <= |from| && i < n && kept[i] != null
    requires forall k :: 0 <= k < |kept| && kept[k] != null ==> from[k] != null
    ensures i <= j < n && kept[j] == kept[i] && Origin(from, kept, n, kept[i]) == from[j]
  {
    if kept[n - 1] == kept[i] {
      j := n - 1;
      SourceIsOrigin(from, kept, n - 1, from[n - 1]);
    } else {
      j := LastSource(from, kept, n - 1, i);
    }
  }

  /** If no target is a source, the condition is that sources of one object agree. */
  lemma SettledIfAgreeing<C>(from: Pointers<C>, kept: Pointers<C>)
    requires Disjoint(kept, from) && |kept| <= |from|
    requires forall k :: 0 <= k < |kept| && kept[k] != null ==> from[k] != null
    ensures Settled(from, kept) <==> Agreeing(from, kept)
  {
    forall i, n | 0 <= i < |from| && from[i] != null && 0 <= n <= |kept|
      ensures Origin(from, kept, n, from[i]) == from[i]
    {
      SourceIsOrigin(from, kept, n, from[i]);
    }
    forall i | 0 <= i < |kept| && kept[i] != null
      ensures Agreeing(from, kept) ==> SettledAt(from, kept, i)
    {
      var j := LastSource(from, kept, |kept|, i);
    }
    if Settled(from, kept) {
      forall i, j | 0 <= i < j < |kept| && kept[i] != null && kept[i] == kept[j]
        ensures from[i].content == from[j].content
      {
        assert SettledAt(from, kept, i) && SettledAt(from, kept, j);
      }
    }
  }

  type Contents<C> = map<Cloneable<C>, C>

  /** What the objects hold at some time. */
  ghost predicate Snapshot<C>(p: Pointers<C>, first: Contents<C>)
    reads Objects(p)
  {
    forall x: Cloneable?<C> :: x in p && x != null ==> x in first && first[x] == x.content
  }

  /** The objects are part of the snapshot. */
  ghost predicate Known<C>(p: Pointers<C>, first: Contents<C>) {
    forall x: Cloneable?<C> :: x in p && x != null ==> x in first
  }

  /** After `n` loads sources and targets hold what their origins held at first. */
  ghost predicate Loaded<C>(from: Pointers<C>, kept: Pointers<C>, n: nat, first: Contents<C>)
    requires n <= |from| && n <= |kept| && Known(from, first) && Known(kept, first)
    reads Objects(from), Objects(kept)
  {
    (forall x: Cloneable?<C> :: x in from && x != null ==> x.content == first[Origin(from, kept, n, x)]) &&
    (forall x: Cloneable?<C> :: x in kept && x != null ==> x.content == first[Origin(from, kept, n, x)])
  }

  /** New objects hold what the origins of their sources held when they were cloned. */
  ghost predicate Copied<C>(from: Pointers<C>, kept: Pointers<C>, to: Pointers<C>, n: nat, first: Contents<C>)
    requires n <= |from| && n <= |kept| && n <= |to| && Known(from, first)
    reads Objects(to)
  {
    forall i :: 0 <= i < n && from[i] != null && kept[i] == null ==>
      to[i] != null && to[i] !in from && to[i] !in kept && to[i].content == first[Origin(from, kept, i, from[i])]
  }

  /** The position `i` of both. */
  method CopyAt<C>(from: Pointers<C>, to: PtrVector<C>, i: nat, debug: bool, ghost kept: Pointers<C>,
      ghost first: Contents<C>)
    returns (thrown: bool)
    requires i < |from| && i < |to.items| && i < |kept| && kept[i] == if from[i] == null then null else to.items[i]
    requires Known(from, first) && Known(kept, first)
    requires Loaded(from, kept, i, first) && Copied(from, kept, to.items, i, first)
    modifies to, to.items[i]
    ensures thrown <==> debug && kept[i] != null && kept[i] == from[i]
    ensures |to.items| == |old(to.items)| && to.items == old(to.items)[i := to.items[i]]
    ensures to.items[i] == null <==> from[i] == null
    ensures from[i] != null ==> if old(to.items)[i] == null then fresh(to.items[i]) else to.items[i] == old(to.items)[i]
    ensures Loaded(from, kept, i + 1, first) && Copied(from, kept, to.items, i + 1, first)
  {
    var r;
    r, thrown := CopyCloneableSmartPointer(from[i], to.items[i], debug);
    to.items := to.items[i := r];
  }

  /** What sources and targets hold at the moment. */
  ghost function Held<C>(p: Pointers<C>): (first: Contents<C>)
    reads Objects(p)
    ensures Snapshot(p, first)
  {
    map x: Cloneable<C> | x in p :: x.content
  }

  /** The first `n` positions hold new objects, each of them once, or what was kept. */
  ghost predicate Placed<C>(from: Pointers<C>, kept: Pointers<C>, to: Pointers<C>, made: set<Cloneable<C>>, n: nat)
    requires n <= |from| && n <= |kept| && n <= |to|
  {
    (forall i :: 0 <= i < n ==> (to[i] == null <==> from[i] == null)) &&
    (forall i :: 0 <= i < n && from[i] != null ==> if kept[i] == null then to[i] in made else to[i] == kept[i]) &&
    (forall i, j :: 0 <= i < j < n && to[i] != null && to[i] in made ==> to[i] != to[j])
  }

  lemma PlacedNext<C>(from: Pointers<C>, kept: Pointers<C>, to: Pointers<C>, made: set<Cloneable<C>>, i: nat,
      x: Cloneable?<C>)
    returns (now: set<Cloneable<C>>)
    requires i < |from| && i < |kept| && i < |to| && Placed(from, kept, to, made, i)
    requires x == null <==> from[i] == null
    requires forall y: Cloneable<C> :: y in made ==> y !in kept
    requires x != null ==> x !in made && if kept[i] == null then x !in kept else x == kept[i]
    ensures Placed(from, kept, to[i := x], now, i + 1)
    ensures forall y: Cloneable<C> :: y in now ==> y in made || (y == x && x !in kept)
  {
    now := if x != null && kept[i] == null then made + {x} else made;
  }

  /** The next position, after others. */
  method CopyNext<C>(from: Pointers<C>, to: PtrVector<C>, i: nat, debug: bool, ghost kept: Pointers<C>,
      ghost first: Contents<C>, ghost made: set<Cloneable<C>>)
    returns (thrown: bool, ghost now: set<Cloneable<C>>)
    requires i < |from| && i < |to.items| && i < |kept| && kept[i] == if from[i] == null then null else to.items[i]
    requires Known(from, first) && Known(kept, first)
    requires Loaded(from, kept, i, first) && Copied(from, kept, to.items, i, first)
    requires Placed(from, kept, to.items, made, i) && forall y: Cloneable<C> :: y in made ==> y !in kept
    modifies to, to.items[i]
    ensures thrown <==> debug && kept[i] != null && kept[i] == from[i]
    ensures |to.items| == |old(to.items)|
    ensures forall k :: 0 <= k < |to.items| && k != i ==> to.items[k] == old(to.items)[k]
    ensures Loaded(from, kept, i + 1, first) && Copied(from, kept, to.items, i + 1, first)
    ensures Placed(from, kept, to.items, now, i + 1)
    ensures forall y: Cloneable<C> :: y in now ==> y !in kept && (y in made || fresh(y))
  {
    ghost var before := to.items;
    thrown := CopyAt(from, to, i, debug, kept, first);
    now := PlacedNext(from, kept, before, made, i, to.items[i]);
  }

  /** The positions up to `size` of both, one by one, until an object would be loaded from
      itself. */
  method CopyInitial<C>(from: Pointers<C>, to: PtrVector<C>, size: nat, debug: bool, ghost kept: Pointers<C>,
      ghost first: Contents<C>)
    returns (thrown: bool)
    requires size <= |from| && size <= |to.items| && KeptUpTo(from, to.items, kept, size)
    requires Known(from, first) && Known(kept, first) && Loaded(from, kept, 0, first)
    modifies to, Objects(to.items)
    ensures thrown <==> debug && HasSelf(from, kept)
    ensures |to.items| == |old(to.items)| && to.items[size..] == old(to.items[size..])
    ensures !thrown ==> Loaded(from, kept, size, first) && Copied(from, kept, to.items, size, first)
    ensures !thrown ==> forall i :: 0 <= i < size ==> (to.items[i] == null <==> from[i] == null)
    ensures !thrown ==> forall i :: 0 <= i < size && from[i] != null ==>
      if kept[i] == null then fresh(to.items[i]) else to.items[i] == kept[i]
    ensures !thrown ==> forall i, j :: 0 <= i < j < size && to.items[i] != null && fresh(to.items[i]) ==>
      to.items[i] != to.items[j]
  {
    ghost var made;
    thrown, made := CopyOneByOne(from, to, size, debug, kept, first);
  }

  /** The loop; `made` are the objects that it creates. */
  method CopyOneByOne<C>(from: Pointers<C>, to: PtrVector<C>, size: nat, debug: bool, ghost kept: Pointers<C>,
      ghost first: Contents<C>)
    returns (thrown: bool, ghost made: set<Cloneable<C>>)
    requires size <= |from| && size <= |to.items| && KeptUpTo(from, to.items, kept, size)
    requires Known(from, first) && Known(kept, first) && Loaded(from, kept, 0, first)
    modifies to, Objects(to.items)
    ensures thrown <==> debug && HasSelf(from, kept)
    ensures |to.items| == |old(to.items)| && forall k :: size <= k < |to.items| ==> to.items[k] == old(to.items)[k]
    ensures !thrown ==> Loaded(from, kept, size, first) && Copied(from, kept, to.items, size, first)
    ensures !thrown ==> Placed(from, kept, to.items, made, size)
    ensures forall y: Cloneable<C> :: y in made ==> fresh(y)
  {
    ghost var was := to.items;
    thrown, made := false, {};
    for i := 0 to size
      invariant |to.items| == |was| && forall k :: i <= k < |was| ==> to.items[k] == was[k]
      invariant Placed(from, kept, to.items, made, i)
      invariant forall y: Cloneable<C> :: y in made ==> fresh(y) && y !in kept
      invariant Loaded(from, kept, i, first) && Copied(from, kept, to.items, i, first)
      invariant !thrown && (debug ==> forall k :: 0 <= k < i && kept[k] != null ==> kept[k] != from[k])
    {
      thrown, made := CopyNext(from, to, i, debug, kept, first, made);
      if thrown {
        assert kept[i] == from[i];
        return;
      }
    }
  }

  /** Copies of the sources from `start` on are attached, until one is empty: cloning it is a
      null pointer access. */
  method AttachCopies<C>(from: Pointers<C>, to: PtrVector<C>, start: nat) returns (crashed: bool)
    requires start == |to.items| <= |from|
    modifies to
    ensures crashed <==> HasEmpty(from[start..])
    ensures |to.items| >= start && to.items[..start] == old(to.items)
    ensures forall i :: start <= i < |to.items| ==> fresh(to.items[i])
    ensures !crashed ==> |to.items| == |from|
    ensures !crashed ==> forall i :: start <= i < |from| ==>
      from[i] != null && to.items[i] != null && to.items[i].content == from[i].content
    ensures forall i, j :: start <= i < j < |to.items| ==> to.items[i] != to.items[j]
  {
    for i := start to |from|
      invariant |to.items| == i && to.items[..start] == old(to.items)
      invariant forall k :: start <= k < i ==> fresh(to.items[k]) && from[k] != null
      invariant forall k :: start <= k < i ==> to.items[k] != null && to.items[k].content == from[k].content
      invariant forall k, l :: start <= k < l < i ==> to.items[k] != to.items[l]
    {
      if from[i] == null {
        assert from[start..][i - start] == null;
        return true;
      }
      var r := from[i].Clone();
      to.items := to.items + [r];
    }
    crashed := false;
  }

  /** The three cases, and what becomes of each position. */
  method CopyByCases<C>(from: Pointers<C>, to: PtrVector<C>, debug: bool, ghost kept: Pointers<C>,
      ghost first: Contents<C>)
    returns (failure: Failure)
    requires kept == Kept(from, to.items)
    requires Known(from, first) && Known(kept, first) && Loaded(from, kept, 0, first)
    modifies to, Objects(to.items)
    ensures failure == SameObject <==> debug && HasSelf(from, kept)
    ensures failure == NullAccess <==>
      failure != SameObject && |from| > |old(to.items)| && HasEmpty(from[|old(to.items)|..])
    ensures failure.NoFailure? ==> |to.items| == |from| && forall i :: 0 <= i < |from| ==>
      (to.items[i] == null <==> from[i] == null)
    ensures failure.NoFailure? ==> forall i :: 0 <= i < |from| && from[i] != null ==>
      if i < |kept| && kept[i] != null then to.items[i] == kept[i] else fresh(to.items[i])
    ensures failure.NoFailure? ==> forall i, j :: 0 <= i < j < |from| && to.items[i] != null && fresh(to.items[i]) ==>
      to.items[i] != to.items[j]
    ensures failure != SameObject ==> Loaded(from, kept, |kept|, first)
    ensures failure.NoFailure? ==> Copied(from, kept, to.items, |kept|, first)
    ensures failure.NoFailure? ==> forall i :: |kept| <= i < |from| && from[i] != null ==>
      to.items[i].content == from[i].content
  {
    var sizeFrom, sizeTo := |from|, |to.items|;
    var thrown;
    failure := NoFailure;
    if sizeFrom == sizeTo {
      thrown := CopyInitial(from, to, sizeFrom, debug, kept, first);
      if thrown { failure := SameObject; }
    } else if sizeFrom > sizeTo {
      thrown := CopyInitial(from, to, sizeTo, debug, kept, first);
      if thrown { return SameObject; }
      var crashed := AttachCopies(from, to, sizeTo);
      if crashed { failure := NullAccess; }
    } else {
      thrown := CopyInitial(from, to, sizeFrom, debug, kept, first);
      if thrown { failure := SameObject; }
      to.items := to.items[..sizeFrom];
    }
  }

  /** The condition in terms of what was held at first. */
  ghost predicate SettledIn<C>(from: Pointers<C>, kept: Pointers<C>, first: Contents<C>)
    requires |kept| <= |from| && Known(from, first) && Known(kept, first)
  {
    forall i :: 0 <= i < |kept| && from[i] != null ==>
      first[if kept[i] != null then Origin(from, kept, |kept|, kept[i]) else Origin(from, kept, i, from[i])] ==
      first[Origin(from, kept, |kept|, from[i])]
  }

  lemma SettledAtFirst<C>(from: Pointers<C>, kept: Pointers<C>, first: Contents<C>)
    requires |kept| <= |from| && Snapshot(from, first) && Snapshot(kept, first)
    ensures Settled(from, kept) <==> SettledIn(from, kept, first)
    ensures Loaded(from, kept, 0, first)
  {
    forall i | 0 <= i < |kept| && from[i] != null
      ensures SettledAt(from, kept, i) <==>
        first[if kept[i] != null then Origin(from, kept, |kept|, kept[i]) else Origin(from, kept, i, from[i])] ==
        first[Origin(from, kept, |kept|, from[i])]
    {
      assert from[i] in from && kept[i] in kept;
    }
  }

  /** Sources and targets in the end. */
  ghost predicate AllLoaded<C>(from: Pointers<C>, kept: Pointers<C>, to: Pointers<C>, first: Contents<C>)
    requires |kept| <= |from| && Known(from, first) && Known(kept, first)
    reads Objects(from), Objects(kept), Objects(to)
  {
    |to| == |from| && Loaded(from, kept, |kept|, first) && Copied(from, kept, to, |kept|, first) &&
    (forall i :: 0 <= i < |from| ==> (to[i] == null <==> from[i] == null)) &&
    (forall i :: 0 <= i < |kept| && kept[i] != null ==> to[i] == kept[i]) &&
    (forall i :: |kept| <= i < |from| && from[i] != null ==> to[i].content == from[i].content)
  }

  lemma SameIfSettled<C>(from: Pointers<C>, kept: Pointers<C>, to: Pointers<C>, first: Contents<C>)
    requires |kept| <= |from| && Known(from, first) && Known(kept, first) && AllLoaded(from, kept, to, first)
    ensures SameContent(from, to) <==> SettledIn(from, kept, first)
  {
    forall i | 0 <= i < |kept| && from[i] != null
      ensures to[i].content == from[i].content <==>
        first[if kept[i] != null then Origin(from, kept, |kept|, kept[i]) else Origin(from, kept, i, from[i])] ==
        first[Origin(from, kept, |kept|, from[i])]
    {
      assert from[i] in from && kept[i] in kept;
    }
  }

  /** Sources that are no targets hold what they held. */
  lemma SourcesStay<C>(from: Pointers<C>, kept: Pointers<C>, first: Contents<C>)
    requires Disjoint(kept, from) && |kept| <= |from| && Known(from, first) && Known(kept, first)
    requires Loaded(from, kept, |kept|, first)
    ensures forall x: Cloneable?<C> :: x in from && x != null ==> x.content == first[x]
  {
    forall x: Cloneable?<C> | x in from && x != null ensures x.content == first[x] {
      SourceIsOrigin(from, kept, |kept|, x);
    }
  }

  /** A target that is neither kept nor empty. */
  ghost predicate IsNew<C>(kept: Pointers<C>, to: Pointers<C>, i: nat)
    requires i < |to|
  {
    to[i] != null && (i < |kept| ==> kept[i] == null)
  }

  /** New targets share nothing; so it depends on those that are kept. */
  lemma SeparateIfKept<C>(from: Pointers<C>, kept: Pointers<C>, to: Pointers<C>)
    requires |kept| <= |to| && forall i :: 0 <= i < |kept| && kept[i] != null ==> to[i] == kept[i]
    requires forall i :: 0 <= i < |to| && IsNew(kept, to, i) ==> to[i] !in from && to[i] !in kept
    requires forall i, j :: 0 <= i < j < |to| && IsNew(kept, to, i) ==> to[i] != to[j]
    ensures Separate(from, to) <==> Separate(from, kept)
  {
    if Separate(from, to) {
      assert forall i :: 0 <= i < |kept| && kept[i] != null ==> to[i] == kept[i];
    }
    if Separate(from, kept) {
      forall i, j | 0 <= i < j < |to| && to[i] != null ensures to[i] != to[j] {
        if !IsNew(kept, to, i) {
          assert kept[i] == to[i];
          if to[j] != null && !IsNew(kept, to, j) { assert kept[j] == to[j]; }
        }
      }
      forall i, j | 0 <= i < |to| && 0 <= j < |from| && to[i] != null ensures to[i] != from[j] {
        if !IsNew(kept, to, i) { assert kept[i] == to[i]; }
      }
    }
  }

  /** Both conditions before the first load. */
  lemma ConditionsAtFirst<C>(from: Pointers<C>, kept: Pointers<C>, first: Contents<C>)
    requires |kept| <= |from| && Snapshot(from + kept, first)
    requires forall k :: 0 <= k < |kept| && kept[k] != null ==> from[k] != null
    ensures Known(from, first) && Known(kept, first) && Loaded(from, kept, 0, first)
    ensures Settled(from, kept) <==> SettledIn(from, kept, first)
    ensures Disjoint(kept, from) ==> (Settled(from, kept) <==> Agreeing(from, kept))
    ensures forall x: Cloneable?<C> :: x in from && x != null ==> x.content == first[x]
  {
    assert forall x: Cloneable?<C> :: x in from || x in kept ==> x in from + kept;
    SettledAtFirst(from, kept, first);
    if Disjoint(kept, from) {
      SettledIfAgreeing(from, kept);
    }
  }

  /** The copy, and what it amounts to. */
  method CopyLoaded<C>(from: Pointers<C>, to: PtrVector<C>, debug: bool, ghost kept: Pointers<C>,
      ghost first: Contents<C>)
    returns (failure: Failure)
    requires kept == Kept(from, to.items)
    requires Known(from, first) && Known(kept, first) && Loaded(from, kept, 0, first)
    modifies to, Objects(to.items)
    ensures failure == SameObject <==> debug && HasSelf(from, kept)
    ensures failure == NullAccess <==>
      failure != SameObject && |from| > |old(to.items)| && HasEmpty(from[|old(to.items)|..])
    ensures failure.NoFailure? ==> |to.items| == |from|
    ensures failure.NoFailure? ==> (SameContent(from, to.items) <==> SettledIn(from, kept, first))
    ensures failure.NoFailure? ==> (Separate(from, to.items) <==> Separate(from, kept))
    ensures failure.NoFailure? ==> forall i :: 0 <= i < |kept| && kept[i] != null ==> to.items[i] == kept[i]
    ensures Disjoint(kept, from) ==> forall x: Cloneable?<C> :: x in from && x != null ==> x.content == first[x]
  {
    failure := CopyByCases(from, to, debug, kept, first);
    if failure.NoFailure? {
      SameIfSettled(from, kept, to.items, first);
      SeparateIfKept(from, kept, to.items);
    }
    if Disjoint(kept, from) {
      SourcesStay(from, kept, first);
    }
  }

  /** A deep copy. It fails exactly when in debug mode an object would have to be loaded from
      itself, or an empty pointer would have to be cloned. Otherwise the target ends up with the
      content of the sources, position by position, exactly if the origins of both sides agree. If
      no target that is loaded into is a source, that is the case exactly if sources agree that
      are loaded into one object, and the sources keep their content. The containers share no
      object afterwards exactly if the targets loaded into are different objects and no sources. */
  method CopyCloneableSmartPointerContainer<C>(from: Pointers<C>, to: PtrVector<C>, debug: bool)
    returns (failure: Failure)
    modifies to, Objects(to.items)
    ensures failure == SameObject <==> debug && HasSelf(from, old(Kept(from, to.items)))
    ensures failure == NullAccess <==>
      failure != SameObject && |from| > |old(to.items)| && HasEmpty(from[|old(to.items)|..])
    ensures failure.NoFailure? ==> |to.items| == |from|
    ensures failure.NoFailure? ==> (SameContent(from, to.items) <==> old(Settled(from, Kept(from, to.items))))
    ensures failure.NoFailure? && Disjoint(old(Kept(from, to.items)), from) ==>
      (SameContent(from, to.items) <==> old(Agreeing(from, Kept(from, to.items))))
    ensures failure.NoFailure? && Separate(from, old(Kept(from, to.items))) ==> SameContent(from, to.items)
    ensures Disjoint(old(Kept(from, to.items)), from) ==> forall x :: x in from && x != null ==>
      x.content == old(x.content)
    ensures failure.NoFailure? ==> (Separate(from, to.items) <==> Separate(from, old(Kept(from, to.items))))
    ensures failure.NoFailure? ==> var kept := old(Kept(from, to.items));
                                   forall i :: 0 <= i < |kept| && kept[i] != null ==> to.items[i] == kept[i]
  {
    ghost var kept := Kept(from, to.items);
    ghost var first := Held(from + kept);
    assert forall i :: 0 <= i < |kept| && kept[i] != null ==> from[i] != null && kept[i] == to.items[i];
    ConditionsAtFirst(from, kept, first);
    failure := CopyLoaded(from, to, debug, kept, first);
  }

  // ----- assignment of a vector of pointers -----

  /** One target. */
  method LoadAt<C>(from: Pointers<C>, target: Cloneable<C>, i: nat, debug: bool, ghost kept: Pointers<C>,
      ghost first: Contents<C>)
    returns (thrown: bool)
    requires i < |from| && i < |kept| && kept[i] == target && from[i] != null
    requires Known(from, first) && Known(kept, first) && Loaded(from, kept, i, first)
    modifies target
    ensures thrown <==> debug && target == from[i]
    ensures Loaded(from, kept, i + 1, first)
  {
    thrown := target.Load(from[i], debug);
  }

  /** Every target up to `size` is loaded; an empty pointer on either side is fatal, and so is, in
      debug mode, an object on both sides. */
  method LoadInitial<C>(from: Pointers<C>, to: PtrVector<C>, size: nat, debug: bool, ghost kept: Pointers<C>,
      ghost first: Contents<C>)
    returns (failure: Failure)
    requires size <= |from| && size <= |to.items| && kept == to.items[..size]
    requires Known(from, first) && Known(kept, first) && Loaded(from, kept, 0, first)
    modifies Objects(to.items)
    ensures failure.NoFailure? <==> !HasEmpty(from[..size]) && !HasEmpty(kept) && !(debug && HasSelf(from, kept))
    ensures failure.SameObject? ==> debug && HasSelf(from, kept)
    ensures failure.NullAccess? ==> HasEmpty(from[..size]) || HasEmpty(kept)
    ensures failure.NoFailure? ==> Loaded(from, kept, size, first)
    ensures Disjoint(kept, from) ==> forall x :: x in from && x != null ==> x.content == old(x.content)
  {
    for i := 0 to size
      invariant forall k :: 0 <= k < i ==> from[k] != null && kept[k] != null
      invariant debug ==> forall k :: 0 <= k < i ==> from[k] != kept[k]
      invariant Loaded(from, kept, i, first)
      invariant Disjoint(kept, from) ==> forall x :: x in from && x != null ==> x.content == old(x.content)
    {
      assert kept[i] == to.items[i] && from[..size][i] == from[i];
      if from[i] == null || to.items[i] == null {
        return NullAccess;
      }
      var thrown := LoadAt(from, to.items[i], i, debug, kept, first);
      if thrown { return SameObject; }
    }
    failure := NoFailure;
  }

  /** The targets that an assignment keeps. */
  function Remaining<C>(from: Pointers<C>, to: Pointers<C>): Pointers<C> {
    if |from| < |to| then to[..|from|] else to
  }

  /** Assignment in the three cases. */
  method AssignByCases<C>(from: Pointers<C>, to: PtrVector<C>, debug: bool, ghost kept: Pointers<C>,
      ghost first: Contents<C>)
    returns (failure: Failure)
    requires kept == Remaining(from, to.items)
    requires Known(from, first) && Known(kept, first) && Loaded(from, kept, 0, first)
    modifies to, Objects(to.items)
    ensures failure.NoFailure? <==> !HasEmpty(from) && !HasEmpty(kept) && !(debug && HasSelf(from, kept))
    ensures failure.SameObject? ==> debug && HasSelf(from, kept)
    ensures failure.NullAccess? ==> HasEmpty(from) || HasEmpty(kept)
    ensures failure.NoFailure? ==> AllLoaded(from, kept, to.items, first)
    ensures failure.NoFailure? ==> forall i :: |kept| <= i < |from| ==> fresh(to.items[i])
    ensures failure.NoFailure? ==> forall i, j :: |kept| <= i < j < |from| ==> to.items[i] != to.items[j]
    ensures Disjoint(kept, from) ==> forall x :: x in from && x != null ==> x.content == old(x.content)
  {
    ghost var was := to.items;
    var localSize, cpSize := |to.items|, |from|;
    if cpSize == localSize {
      failure := LoadInitial(from, to, cpSize, debug, kept, first);
      assert from[..cpSize] == from;
    } else if cpSize > localSize {
      failure := LoadInitial(from, to, localSize, debug, kept, first);
      assert from == from[..localSize] + from[localSize..];
      if !failure.NoFailure? { return; }
      var crashed := AttachCopies(from, to, localSize);
      if crashed { return NullAccess; }
    } else {
      to.items := to.items[..cpSize];
      failure := LoadInitial(from, to, cpSize, debug, kept, first);
      assert from[..cpSize] == from;
    }
  }

  /** Assignment from a vector of pointers: as above, but without provision for empty pointers,
      and surplus targets are dropped first. */
  method AssignVector<C>(from: Pointers<C>, to: PtrVector<C>, debug: bool) returns (failure: Failure)
    modifies to, Objects(to.items)
    ensures var kept := old(Remaining(from, to.items));
            failure.NoFailure? <==> !HasEmpty(from) && !HasEmpty(kept) && !(debug && HasSelf(from, kept))
    ensures failure.SameObject? ==> debug && HasSelf(from, old(Remaining(from, to.items)))
    ensures failure.NullAccess? ==> HasEmpty(from) || HasEmpty(old(Remaining(from, to.items)))
    ensures failure.NoFailure? ==> SameShape(from, old(to.items), to.items)
    ensures failure.NoFailure? ==>
      (SameContent(from, to.items) <==> old(Settled(from, Remaining(from, to.items))))
    ensures failure.NoFailure? && Disjoint(old(Remaining(from, to.items)), from) ==>
      (SameContent(from, to.items) <==> old(Agreeing(from, Remaining(from, to.items))))
    ensures failure.NoFailure? ==> (Separate(from, to.items) <==> Separate(from, old(Remaining(from, to.items))))
    ensures Disjoint(old(Remaining(from, to.items)), from) ==>
      forall x :: x in from && x != null ==> x.content == old(x.content)
  {
    ghost var kept := Remaining(from, to.items);
    ghost var first := Held(from + kept);
    AssignmentAtFirst(from, kept, first);
    failure := AssignByCases(from, to, debug, kept, first);
    if failure.NoFailure? {
      SameIfSettled(from, kept, to.items, first);
    }
  }

  lemma AssignmentAtFirst<C>(from: Pointers<C>, kept: Pointers<C>, first: Contents<C>)
    requires |kept| <= |from| && Snapshot(from + kept, first)
    ensures Known(from, first) && Known(kept, first) && Loaded(from, kept, 0, first)
    ensures Settled(from, kept) <==> SettledIn(from, kept, first)
    ensures !HasEmpty(from) && Disjoint(kept, from) ==> (Settled(from, kept) <==> Agreeing(from, kept))
  {
    assert forall x: Cloneable?<C> :: x in from || x in kept ==> x in from + kept;
    SettledAtFirst(from, kept, first);
    if !HasEmpty(from) && Disjoint(kept, from) {
      SettledIfAgreeing(from, kept);
    }
  }

  /** Targets that were there before stay where they are. */
  ghost predicate SameShape<C>(from: Pointers<C>, before: Pointers<C>, after: Pointers<C>) {
    |after| == |from| && forall i :: 0 <= i < |from| && i < |before| ==> after[i] == before[i]
  }
}
