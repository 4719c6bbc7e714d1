/** GFixedSizePriorityQueueT: every addition sorts by id, removes duplicates, sorts by
    evaluation and cuts off what is too much. */
module PriorityQueue {

  /** A work item as the queue sees it. Ids are only compared with each other. */
  datatype Item = Item(id: int, evaluation: real)

  datatype SortOrder = LowerIsBetter | HigherIsBetter

  datatype Result<+T> = Ok(value: T) | QueueIsEmpty

  predicate IsBetter(order: SortOrder, a: real, b: real) {
    if order == LowerIsBetter then a < b else a > b
  }

  /** Items with the same id are the same item. */
  ghost predicate Consistent(s: set<Item>) {
    forall x, y :: x in s && y in s && x.id == y.id ==> x == y
  }

  function Items(q: seq<Item>): set<Item> { set x | x in q }

  ghost predicate SortedById(q: seq<Item>) {
    forall i, j :: 0 <= i < j < |q| ==> q[i].id <= q[j].id
  }

  ghost predicate DistinctIds(q: seq<Item>) {
    forall i, j :: 0 <= i < j < |q| ==> q[i].id != q[j].id
  }

  ghost predicate BestFirst(order: SortOrder, q: seq<Item>) {
    forall i, j :: 0 <= i < j < |q| ==> !IsBetter(order, q[j].evaluation, q[i].evaluation)
  }

  // ----- what the queue should hold -----

  /** `q` holds the best items of the history `h`, best first: all of them if the size is
      unlimited (0) or not reached, and otherwise `maxSize` that no other item of `h` betters. */
  ghost predicate TopOf(order: SortOrder, maxSize: nat, q: seq<Item>, h: set<Item>) {
    BestFirst(order, q) && DistinctIds(q) && Items(q) <= h &&
    (maxSize > 0 ==> |q| <= maxSize) &&
    (maxSize == 0 || |q| < maxSize ==> Items(q) == h) &&
    forall x, y :: x in q && y in h && y !in q ==> !IsBetter(order, y.evaluation, x.evaluation)
  }

  ghost predicate Valid(order: SortOrder, maxSize: nat, q: seq<Item>) {
    BestFirst(order, q) && DistinctIds(q) && (maxSize > 0 ==> |q| <= maxSize)
  }

  lemma {:induction false} DistinctCount(q: seq<Item>)
    requires DistinctIds(q)
    ensures |Items(q)| == |q|
  {
    if q != [] {
      DistinctCount(q[1..]);
      assert Items(q) == {q[0]} + Items(q[1..]);
      assert q[0] !in q[1..];
    }
  }

  /** The evaluations are determined by the history, whatever the sorting does with items of
      equal evaluation: at every position the two queues are equally good. */
  lemma TopIsUnique(order: SortOrder, maxSize: nat, p: seq<Item>, q: seq<Item>, h: set<Item>)
    requires TopOf(order, maxSize, p, h) && TopOf(order, maxSize, q, h)
    ensures |p| == |q| && forall i :: 0 <= i < |p| ==> p[i].evaluation == q[i].evaluation
  {
    DistinctCount(p);
    DistinctCount(q);
    TopSameSize(order, maxSize, p, q, h);
    forall i | 0 <= i < |p|
      ensures p[i].evaluation == q[i].evaluation
    {
      NotBetterAt(order, maxSize, p, q, h, i);
      NotBetterAt(order, maxSize, q, p, h, i);
    }
  }

  lemma TopSameSize(order: SortOrder, maxSize: nat, p: seq<Item>, q: seq<Item>, h: set<Item>)
    requires TopOf(order, maxSize, p, h) && TopOf(order, maxSize, q, h)
    requires |Items(p)| == |p| && |Items(q)| == |q|
    ensures |p| == |q|
  {
    SubsetSmaller(Items(p), h);
    SubsetSmaller(Items(q), h);
  }

  lemma {:induction false} SubsetSmaller(a: set<Item>, b: set<Item>)
    requires a <= b
    ensures |a| <= |b|
  {
    if a != {} {
      var x :| x in a;
      SubsetSmaller(a - {x}, b - {x});
    }
  }

  /** Were p[i] better than q[i], the i + 1 first items of p would all have to be among the i
      first items of q. */
  lemma NotBetterAt(order: SortOrder, maxSize: nat, p: seq<Item>, q: seq<Item>, h: set<Item>, i: nat)
    requires TopOf(order, maxSize, p, h) && TopOf(order, maxSize, q, h) && |p| == |q| && i < |p|
    ensures !IsBetter(order, p[i].evaluation, q[i].evaluation)
  {
    if IsBetter(order, p[i].evaluation, q[i].evaluation) {
      forall x | x in Items(p[..i + 1])
        ensures x in Items(q[..i])
      {
        var j :| 0 <= j <= i && p[j] == x;
        assert !IsBetter(order, p[i].evaluation, x.evaluation) || j == i;
        assert IsBetter(order, x.evaluation, q[i].evaluation);
        assert x in q by { assert q[i] in q; }
        var k :| 0 <= k < |q| && q[k] == x;
        assert k < i;
        assert q[..i][k] == x;
      }
      SubsetSmaller(Items(p[..i + 1]), Items(q[..i]));
      DistinctCount(p[..i + 1]);
      DistinctCount(q[..i]);
      assert false;
    }
  }

  // ----- which items an addition considers -----

  /** The queue and the new item, unless the queue is full and the item no improvement. */
  function Pool(order: SortOrder, maxSize: nat, q: seq<Item>, item: Item): seq<Item> {
    if maxSize == 0 || |q| < maxSize || IsBetter(order, item.evaluation, q[|q| - 1].evaluation) then q + [item] else q
  }

  /** The same for a batch: the threshold stays what it was before the first item. */
  function BatchPool(order: SortOrder, maxSize: nat, threshold: real, q: seq<Item>, items: seq<Item>): seq<Item>
    decreases |items|
  {
    if items == [] then q
    else
      var accepted := maxSize == 0 || |q| < maxSize || IsBetter(order, items[0].evaluation, threshold);
      BatchPool(order, maxSize, threshold, if accepted then q + [items[0]] else q, items[1..])
  }

  function Cut(maxSize: nat, q: seq<Item>): seq<Item> {
    if maxSize > 0 && |q| > maxSize then q[..maxSize] else q
  }

  /** Cutting a sorted selection of all of `h` leaves the best. */
  lemma CutIsTop(order: SortOrder, maxSize: nat, q: seq<Item>, h: set<Item>)
    requires BestFirst(order, q) && DistinctIds(q) && Items(q) == h
    ensures TopOf(order, maxSize, Cut(maxSize, q), h)
  {
    var r := Cut(maxSize, q);
    forall x, y | x in r && y in h && y !in r
      ensures !IsBetter(order, y.evaluation, x.evaluation)
    {
      var i :| 0 <= i < |r| && r[i] == x;
      var j :| 0 <= j < |q| && q[j] == y;
      assert forall k :: 0 <= k < |r| ==> q[k] == r[k] && r[k] in r;
      assert i < |r| <= j;
    }
  }

  // ----- the object -----

  ghost predicate SortedBy(key: Item -> real, q: seq<Item>) {
    forall i, j :: 0 <= i < j < |q| ==> key(q[i]) <= key(q[j])
  }

  lemma InsertSorted(key: Item -> real, r: seq<Item>, k: nat, x: Item)
    requires SortedBy(key, r) && k <= |r|
    requires k > 0 ==> key(r[k - 1]) <= key(x)
    requires forall j :: k <= j < |r| ==> key(x) < key(r[j])
    ensures SortedBy(key, r[..k] + [x] + r[k..])
  {
    var s := r[..k] + [x] + r[k..];
    forall i, j | 0 <= i < j < |s|
      ensures key(s[i]) <= key(s[j])
    {
      assert s[i] == if i < k then r[i] else if i == k then x else r[i - 1];
      assert s[j] == if j < k then r[j] else if j == k then x else r[j - 1];
    }
  }

  lemma InsertedItems(r: seq<Item>, k: nat, x: Item)
    requires k <= |r|
    ensures multiset(r[..k] + [x] + r[k..]) == multiset(r) + multiset{x}
  {
    assert r == r[..k] + r[k..];
  }

  /** Puts an item in front of the first one with a larger key. */
  method Insert(r: seq<Item>, key: Item -> real, x: Item) returns (s: seq<Item>)
    requires SortedBy(key, r)
    ensures SortedBy(key, s) && multiset(s) == multiset(r) + multiset{x}
  {
    var k := |r|;
    while k > 0 && key(x) < key(r[k - 1])
      invariant 0 <= k <= |r|
      invariant forall j :: k <= j < |r| ==> key(x) < key(r[j])
    {
      k := k - 1;
    }
    InsertSorted(key, r, k, x);
    InsertedItems(r, k, x);
    s := r[..k] + [x] + r[k..];
  }

  /** std::sort with a comparator that compares keys. Callers rely on the contract only: items
      with the same key may come out in any order. */
  method Sort(q: seq<Item>, key: Item -> real) returns (r: seq<Item>)
    ensures SortedBy(key, r) && multiset(r) == multiset(q)
  {
    r := [];
    for n := 0 to |q|
      invariant SortedBy(key, r) && multiset(r) == multiset(q[..n])
    {
      assert q[..n + 1] == q[..n] + [q[n]];
      r := Insert(r, key, q[n]);
    }
    assert q[..|q|] == q;
  }

  /** std::unique followed by erase: of neighbours with equal ids the first one stays. */
  method RemoveDuplicates(q: seq<Item>) returns (r: seq<Item>)
    requires SortedById(q)
    ensures DistinctIds(r) && Items(r) <= Items(q)
    ensures forall x :: x in q ==> exists y :: y in r && y.id == x.id
  {
    r := [];
    for n := 0 to |q|
      invariant DistinctIds(r) && SortedById(r) && Items(r) <= Items(q)
      invariant n > 0 ==> r != [] && r[|r| - 1].id == q[n - 1].id
      invariant n == 0 ==> r == []
      invariant forall i :: 0 <= i < n ==> exists y :: y in r && y.id == q[i].id
    {
      ghost var before := r;
      if n == 0 || q[n - 1].id != q[n].id {
        assert n > 0 ==> q[n - 1].id < q[n].id;
        r := r + [q[n]];
      }
      assert forall y :: y in before ==> y in r;
      assert r[|r| - 1] in r && r[|r| - 1].id == q[n].id;
    }
  }

  lemma PermutationItems(p: seq<Item>, q: seq<Item>)
    requires multiset(p) == multiset(q)
    ensures Items(p) == Items(q) && |p| == |q|
  {
    forall x ensures x in p <==> x in q {
      assert x in p <==> x in multiset(p);
      assert x in q <==> x in multiset(q);
    }
    assert |multiset(p)| == |p| && |multiset(q)| == |q|;
  }

  lemma {:induction false} ItemsAtMost(q: seq<Item>)
    ensures |Items(q)| <= |q|
  {
    if q != [] {
      ItemsAtMost(q[1..]);
      assert Items(q) == {q[0]} + Items(q[1..]);
    }
  }

  lemma {:induction false} CountedDistinct(q: seq<Item>)
    requires |Items(q)| == |q|
    ensures forall i, j :: 0 <= i < j < |q| ==> q[i] != q[j]
  {
    if q != [] {
      var rest := q[1..];
      ItemsAtMost(rest);
      assert Items(q) == {q[0]} + Items(rest);
      assert q[0] in rest ==> Items(q) == Items(rest);
      CountedDistinct(rest);
      forall i, j | 0 <= i < j < |q| ensures q[i] != q[j] {
        assert q[j] == q[1..][j - 1];
      }
    }
  }

  lemma PermutationDistinct(p: seq<Item>, q: seq<Item>)
    requires multiset(p) == multiset(q) && DistinctIds(p)
    ensures DistinctIds(q)
  {
    PermutationItems(p, q);
    DistinctCount(p);
    CountedDistinct(q);
    forall i, j | 0 <= i < j < |q|
      ensures q[i].id != q[j].id
    {
      assert q[i] in Items(p) && q[j] in Items(p);
    }
  }

  function IdKey(x: Item): real { x.id as real }

  /** Smaller keys are better. */
  function EvaluationKey(order: SortOrder): Item -> real {
    (x: Item) => if order == LowerIsBetter then x.evaluation else -x.evaluation
  }

  lemma SortingSelects(order: SortOrder, maxSize: nat, pool: seq<Item>, byId: seq<Item>, unique: seq<Item>,
      sorted: seq<Item>)
    requires multiset(byId) == multiset(pool) && Items(unique) <= Items(byId) && DistinctIds(unique)
    requires forall x :: x in byId ==> exists y :: y in unique && y.id == x.id
    requires multiset(sorted) == multiset(unique) && SortedBy(EvaluationKey(order), sorted)
    ensures Valid(order, maxSize, Cut(maxSize, sorted))
    ensures Consistent(Items(pool)) ==> TopOf(order, maxSize, Cut(maxSize, sorted), Items(pool))
  {
    PermutationItems(byId, pool);
    PermutationItems(sorted, unique);
    PermutationDistinct(unique, sorted);
    assert BestFirst(order, sorted) by {
      forall i, j | 0 <= i < j < |sorted| ensures !IsBetter(order, sorted[j].evaluation, sorted[i].evaluation) {
        assert EvaluationKey(order)(sorted[i]) <= EvaluationKey(order)(sorted[j]);
      }
    }
    if Consistent(Items(pool)) {
      forall x | x in Items(pool) ensures x in Items(sorted) {
        assert x in Items(byId);
        var y :| y in unique && y.id == x.id;
        assert y in Items(unique);
      }
      assert Items(sorted) == Items(pool);
      CutIsTop(order, maxSize, sorted, Items(pool));
    }
  }

  class GFixedSizePriorityQueue {
    var data: seq<Item>
    var maxSize: nat
    var sortOrder: SortOrder

    constructor (maxSize: nat, sortOrder: SortOrder)
      ensures data == [] && this.maxSize == maxSize && this.sortOrder == sortOrder
    {
      data := [];
      this.maxSize := maxSize;
      this.sortOrder := sortOrder;
    }

    method Best() returns (r: Result<Item>)
      ensures r.QueueIsEmpty? <==> data == []
      ensures BestFirst(sortOrder, data) && r.Ok? ==>
                r.value in data && forall x :: x in data ==> !IsBetter(sortOrder, x.evaluation, r.value.evaluation)
      ensures BestFirst(sortOrder, data) && r.Ok? ==>
                forall x :: x in data ==> if sortOrder == LowerIsBetter then r.value.evaluation <= x.evaluation
                                          else r.value.evaluation >= x.evaluation
    {
      if data == [] { return QueueIsEmpty; }
      return Ok(data[0]);
    }

    method Worst() returns (r: Result<Item>)
      ensures r == if data == [] then QueueIsEmpty else Ok(data[|data| - 1])
      ensures BestFirst(sortOrder, data) && r.Ok? ==>
                forall x :: x in data ==> !IsBetter(sortOrder, r.value.evaluation, x.evaluation)
      ensures BestFirst(sortOrder, data) && r.Ok? ==>
                forall x :: x in data ==> if sortOrder == LowerIsBetter then r.value.evaluation >= x.evaluation
                                          else r.value.evaluation <= x.evaluation
    {
      if data == [] { return QueueIsEmpty; }
      return Ok(data[|data| - 1]);
    }

    /** The common end of both additions. */
    method SelectBest()
      modifies this`data
      ensures Valid(sortOrder, maxSize, data)
      ensures Consistent(Items(old(data))) ==> TopOf(sortOrder, maxSize, data, Items(old(data)))
    {
      ghost var pool := data;
      data := Sort(data, IdKey);
      assert SortedById(data) by {
        forall i, j | 0 <= i < j < |data| ensures data[i].id <= data[j].id {
          assert IdKey(data[i]) <= IdKey(data[j]);
        }
      }
      ghost var byId := data;
      data := RemoveDuplicates(data);
      ghost var unique := data;
      data := Sort(data, EvaluationKey(sortOrder));
      SortingSelects(sortOrder, maxSize, pool, byId, unique, data);
      if maxSize > 0 && |data| > maxSize {
        data := data[..maxSize];
      }
    }

    /** Adds one item. The worst item is only asked for when there is one. */
    method Add(item: Item)
      modifies this`data
      ensures Valid(sortOrder, maxSize, data)
      ensures forall i, j :: 0 <= i < j < |data| ==>
        data[i].id != data[j].id &&
        if sortOrder == LowerIsBetter then data[i].evaluation <= data[j].evaluation
        else data[i].evaluation >= data[j].evaluation
      ensures maxSize > 0 ==> |data| <= maxSize
      ensures old(Valid(sortOrder, maxSize, data)) && Consistent(Items(old(data) + [item])) ==>
        (forall x :: x in data ==> x in old(data) || x == item) &&
        (forall y :: (y in old(data) || y == item) && y !in data ==>
          |data| == maxSize > 0 &&
          forall x :: x in data ==>
            if sortOrder == LowerIsBetter then x.evaluation <= y.evaluation else x.evaluation >= y.evaluation)
      ensures var pool := Pool(sortOrder, maxSize, old(data), item);
              Consistent(Items(pool)) ==> TopOf(sortOrder, maxSize, data, Items(pool))
    {
      var accepted := maxSize == 0 || |data| < maxSize;
      if !accepted {
        var worst := Worst();
        assert worst.Ok?;
        accepted := IsBetter(sortOrder, item.evaluation, worst.value.evaluation);
      }
      if accepted {
        data := data + [item];
      }
      SelectBest();
      AddMeans(sortOrder, maxSize, old(data), item, data);
    }

    /** Adds a batch. `worstCase` is the worst value the evaluation type has. */
    method AddBatch(items: seq<Item>, replace: bool, worstCase: real)
      modifies this`data
      ensures Valid(sortOrder, maxSize, data)
      ensures forall i, j :: 0 <= i < j < |data| ==>
        data[i].id != data[j].id &&
        if sortOrder == LowerIsBetter then data[i].evaluation <= data[j].evaluation
        else data[i].evaluation >= data[j].evaluation
      ensures maxSize > 0 ==> |data| <= maxSize
      ensures var start := if replace then [] else old(data);
              var threshold := if start == [] then worstCase else start[|start| - 1].evaluation;
              var pool := BatchPool(sortOrder, maxSize, threshold, start, items);
              Consistent(Items(pool)) ==> TopOf(sortOrder, maxSize, data, Items(pool))
      ensures var start := if replace then [] else old(data);
              Valid(sortOrder, maxSize, start) && Consistent(Items(start) + Items(items)) &&
              (start == [] || maxSize == 0 || |start| == maxSize) &&
              (forall y :: y in items ==>
                 if sortOrder == LowerIsBetter then y.evaluation < worstCase else y.evaluation > worstCase) ==>
              (forall x :: x in data ==> x in start || x in items) &&
              (forall y :: (y in start || y in items) && y !in data ==>
                |data| == maxSize > 0 &&
                forall x :: x in data ==>
                  if sortOrder == LowerIsBetter then x.evaluation <= y.evaluation else x.evaluation >= y.evaluation)
    {
      var threshold := worstCase;
      if replace || data == [] {
        data := [];
      } else {
        var worst := Worst();
        threshold := worst.value.evaluation;
      }
      ghost var pool := BatchPool(sortOrder, maxSize, threshold, data, items);
      for n := 0 to |items|
        invariant BatchPool(sortOrder, maxSize, threshold, data, items[n..]) == pool
      {
        assert items[n..][1..] == items[n + 1..];
        if maxSize == 0 || |data| < maxSize || IsBetter(sortOrder, items[n].evaluation, threshold) {
          data := data + [items[n]];
        }
      }
      SelectBest();
      BatchMeans(sortOrder, maxSize, if replace then [] else old(data), items, worstCase, data);
    }

    method Pop() returns (r: Result<Item>)
      modifies this`data
      ensures r.QueueIsEmpty? <==> old(data) == []
      ensures r.QueueIsEmpty? ==> data == []
      ensures r.Ok? ==> old(data) == [r.value] + data
      ensures old(Valid(sortOrder, maxSize, data)) ==> Valid(sortOrder, maxSize, data)
    {
      if data == [] { return QueueIsEmpty; }
      r := Ok(data[0]);
      data := data[1..];
    }

    /** Shrinking keeps the best; a new size of 0 empties the queue before it lifts the limit. */
    method SetMaxSize(newSize: nat)
      modifies this`data, this`maxSize
      ensures maxSize == newSize && data == old(data)[..if |old(data)| > newSize then newSize else |old(data)|]
      ensures old(BestFirst(sortOrder, data) && DistinctIds(data)) ==> Valid(sortOrder, maxSize, data)
    {
      if |data| > newSize {
        data := data[..newSize];
      }
      maxSize := newSize;
      assert data == old(data)[..|data|];
    }
  }

  // ----- additions keep the best of the whole history -----

  /** The best of `s` are the best of a larger set `t` if `s` holds a full queue `q` that nothing
      in the rest of `t` betters. */
  lemma EnlargeHistory(order: SortOrder, maxSize: nat, q: seq<Item>, r: seq<Item>, s: set<Item>, t: set<Item>)
    requires DistinctIds(q) && Items(q) <= s <= t && TopOf(order, maxSize, r, s)
    requires t == s || (maxSize > 0 && |q| == maxSize)
    requires forall x, y :: x in q && y in t && y !in s ==> !IsBetter(order, y.evaluation, x.evaluation)
    ensures TopOf(order, maxSize, r, t)
  {
    if t != s {
      DistinctCount(q);
      DistinctCount(r);
      SubsetSmaller(Items(q), s);
      assert |r| == maxSize;
      forall x, y | x in r && y in t && y !in r
        ensures !IsBetter(order, y.evaluation, x.evaluation)
      {
        assert x in Items(r);
        if y !in s && IsBetter(order, y.evaluation, x.evaluation) {
          forall z | z in Items(q) ensures z in Items(r) - {x} {
            assert IsBetter(order, z.evaluation, x.evaluation);
          }
          SubsetSmaller(Items(q), Items(r) - {x});
          assert false;
        }
      }
    }
  }

  /** If the queue is the top of `h` and one addition is made, it is the top of `h` and the item. */
  lemma AddKeepsTop(order: SortOrder, maxSize: nat, q: seq<Item>, h: set<Item>, item: Item, r: seq<Item>)
    requires TopOf(order, maxSize, q, h)
    requires TopOf(order, maxSize, r, Items(Pool(order, maxSize, q, item)))
    ensures TopOf(order, maxSize, r, h + {item})
  {
    var pool := Pool(order, maxSize, q, item);
    assert Items(q + [item]) == Items(q) + {item};
    EnlargeHistory(order, maxSize, q, r, Items(pool), h + {item});
  }

  /** The best of a history, said of numbers. */
  lemma TopMeans(order: SortOrder, maxSize: nat, q: seq<Item>, h: set<Item>)
    requires TopOf(order, maxSize, q, h)
    ensures forall x :: x in q ==> x in h
    ensures forall y :: y in h && y !in q ==>
      |q| == maxSize > 0 &&
      forall x :: x in q ==>
        if order == LowerIsBetter then x.evaluation <= y.evaluation else x.evaluation >= y.evaluation
  {
    forall x | x in q ensures x in h {
      assert x in Items(q);
    }
    forall y | y in h && y !in q
      ensures |q| == maxSize > 0
      ensures forall x :: x in q ==>
        if order == LowerIsBetter then x.evaluation <= y.evaluation else x.evaluation >= y.evaluation
    {
      assert y !in Items(q);
    }
  }

  /** What one addition leaves, said of numbers. */
  lemma AddMeans(order: SortOrder, maxSize: nat, start: seq<Item>, item: Item, q: seq<Item>)
    requires Consistent(Items(Pool(order, maxSize, start, item))) ==>
      TopOf(order, maxSize, q, Items(Pool(order, maxSize, start, item)))
    ensures
      Valid(order, maxSize, start) && Consistent(Items(start + [item])) ==>
      (forall x :: x in q ==> x in start || x == item) &&
      (forall y :: (y in start || y == item) && y !in q ==>
        |q| == maxSize > 0 &&
        forall x :: x in q ==>
          if order == LowerIsBetter then x.evaluation <= y.evaluation else x.evaluation >= y.evaluation)
  {
    if Valid(order, maxSize, start) && Consistent(Items(start + [item])) {
      assert Items(start + [item]) == Items(start) + {item};
      AddKeepsTop(order, maxSize, start, Items(start), item, q);
      TopMeans(order, maxSize, q, Items(start) + {item});
    }
  }

  /** What a batch leaves, said of numbers. */
  lemma BatchMeans(order: SortOrder, maxSize: nat, start: seq<Item>, items: seq<Item>, worstCase: real, q: seq<Item>)
    requires var pool := Items(BatchPool(order, maxSize, Threshold(start, worstCase), start, items));
             Consistent(pool) ==> TopOf(order, maxSize, q, pool)
    ensures
      Valid(order, maxSize, start) && Consistent(Items(start) + Items(items)) &&
      (start == [] || maxSize == 0 || |start| == maxSize) &&
      (forall y :: y in items ==>
         if order == LowerIsBetter then y.evaluation < worstCase else y.evaluation > worstCase) ==>
      (forall x :: x in q ==> x in start || x in items) &&
      (forall y :: (y in start || y in items) && y !in q ==>
        |q| == maxSize > 0 &&
        forall x :: x in q ==>
          if order == LowerIsBetter then x.evaluation <= y.evaluation else x.evaluation >= y.evaluation)
  {
    if Valid(order, maxSize, start) && Consistent(Items(start) + Items(items)) && BatchIsSafe(maxSize, start) &&
      AllBetter(order, items, worstCase) {
      BatchSkips(order, maxSize, Threshold(start, worstCase), start, items);
      BatchKeepsTop(order, maxSize, start, Items(start), items, worstCase, q);
      TopMeans(order, maxSize, q, Items(start) + Items(items));
    }
  }

  /** `states` are the contents of the queue before, between and after single additions. */
  ghost predicate OneByOne(order: SortOrder, maxSize: nat, states: seq<seq<Item>>, items: seq<Item>) {
    |states| == |items| + 1 &&
    forall i :: 0 <= i < |items| ==>
      TopOf(order, maxSize, states[i + 1], Items(Pool(order, maxSize, states[i], items[i])))
  }

  lemma {:induction false} OnlineTop(order: SortOrder, maxSize: nat, states: seq<seq<Item>>, items: seq<Item>,
      h: set<Item>)
    requires OneByOne(order, maxSize, states, items) && TopOf(order, maxSize, states[0], h)
    ensures TopOf(order, maxSize, states[|items|], h + Items(items))
    decreases |items|
  {
    if items == [] {
      assert h + Items(items) == h;
    } else {
      AddKeepsTop(order, maxSize, states[0], h, items[0], states[1]);
      OnlineTop(order, maxSize, states[1..], items[1..], h + {items[0]});
      assert h + {items[0]} + Items(items[1..]) == h + Items(items);
    }
  }

  /** A queue that is the top of a history stays so over any sequence of additions. */
  method AddOneByOne(queue: GFixedSizePriorityQueue, items: seq<Item>, ghost h: set<Item>)
    requires TopOf(queue.sortOrder, queue.maxSize, queue.data, h) && Consistent(h + Items(items))
    modifies queue`data
    ensures TopOf(queue.sortOrder, queue.maxSize, queue.data, h + Items(items))
    ensures forall i, j :: 0 <= i < j < |queue.data| ==>
      queue.data[i].id != queue.data[j].id &&
      if queue.sortOrder == LowerIsBetter then queue.data[i].evaluation <= queue.data[j].evaluation
      else queue.data[i].evaluation >= queue.data[j].evaluation
    ensures forall x :: x in queue.data ==> x in h || x in items
    ensures forall y :: (y in h || y in items) && y !in queue.data ==>
      |queue.data| == queue.maxSize > 0 &&
      forall x :: x in queue.data ==>
        if queue.sortOrder == LowerIsBetter then x.evaluation <= y.evaluation else x.evaluation >= y.evaluation
  {
    ghost var added := h;
    assert h == h + Items(items[..0]);
    for n := 0 to |items|
      invariant added == h + Items(items[..n]) && TopOf(queue.sortOrder, queue.maxSize, queue.data, added)
    {
      NextConsistent(h, items, n, queue.data, added);
      AddOne(queue, items[n], added);
      added := added + {items[n]};
    }
    assert items[..|items|] == items;
    TopMeans(queue.sortOrder, queue.maxSize, queue.data, added);
  }

  /** The history so far and the next item are part of the whole. */
  lemma NextConsistent(h: set<Item>, items: seq<Item>, n: nat, q: seq<Item>, added: set<Item>)
    requires n < |items| && Consistent(h + Items(items)) && added == h + Items(items[..n]) && Items(q) <= added
    ensures Consistent(Items(q) + {items[n]}) && added + {items[n]} == h + Items(items[..n + 1])
  {
    assert items[n] in Items(items) && Items(items[..n]) <= Items(items);
    assert Items(items[..n + 1]) == Items(items[..n]) + {items[n]};
  }

  /** One addition. */
  method AddOne(queue: GFixedSizePriorityQueue, item: Item, ghost added: set<Item>)
    requires TopOf(queue.sortOrder, queue.maxSize, queue.data, added) && Consistent(Items(queue.data) + {item})
    modifies queue`data
    ensures TopOf(queue.sortOrder, queue.maxSize, queue.data, added + {item})
  {
    ghost var before := queue.data;
    assert Items(before + [item]) == Items(before) + {item};
    queue.Add(item);
    AddKeepsTop(queue.sortOrder, queue.maxSize, before, added, item, queue.data);
  }

  /** After any additions to an empty queue, the evaluations it holds are the first ones of the
      whole history sorted offline without duplicates. */
  lemma OnlineEqualsOffline(order: SortOrder, maxSize: nat, states: seq<seq<Item>>, items: seq<Item>,
      offline: seq<Item>)
    requires OneByOne(order, maxSize, states, items) && states[0] == []
    requires BestFirst(order, offline) && DistinctIds(offline) && Items(offline) == Items(items)
    ensures var online := states[|items|];
            var best := Cut(maxSize, offline);
            |online| == |best| && forall i :: 0 <= i < |best| ==> online[i].evaluation == best[i].evaluation
  {
    OnlineTop(order, maxSize, states, items, {});
    assert {} + Items(items) == Items(items);
    CutIsTop(order, maxSize, offline, Items(items));
    TopIsUnique(order, maxSize, states[|items|], Cut(maxSize, offline), Items(items));
  }

  // ----- batches -----

  ghost predicate AllBetter(order: SortOrder, items: seq<Item>, threshold: real) {
    forall x :: x in items ==> IsBetter(order, x.evaluation, threshold)
  }

  /** A batch only skips items that do not improve on the threshold, and only once the pool has
      reached the maximum size. */
  lemma {:induction false} BatchSkips(order: SortOrder, maxSize: nat, threshold: real, q: seq<Item>, items: seq<Item>)
    ensures var pool := Items(BatchPool(order, maxSize, threshold, q, items));
            Items(q) <= pool <= Items(q) + Items(items) &&
            forall y :: y in items && y !in pool ==> maxSize > 0 && !IsBetter(order, y.evaluation, threshold)
    decreases |items|
  {
    if items != [] {
      var x := items[0];
      assert Items(q + [x]) == Items(q) + {x};
      var accepted := maxSize == 0 || |q| < maxSize || IsBetter(order, x.evaluation, threshold);
      BatchSkips(order, maxSize, threshold, if accepted then q + [x] else q, items[1..]);
      assert Items(items) == {x} + Items(items[1..]);
      assert forall y :: y in items ==> y == x || y in items[1..];
    }
  }

  function Threshold(start: seq<Item>, worstCase: real): real {
    if start == [] then worstCase else start[|start| - 1].evaluation
  }

  /** The situations in which a batch may be added without loss. */
  predicate BatchIsSafe(maxSize: nat, start: seq<Item>) { start == [] || maxSize == 0 || |start| >= maxSize }

  /** A batch added to a full, empty or unlimited queue leaves the best of history and batch. */
  lemma BatchKeepsTop(order: SortOrder, maxSize: nat, start: seq<Item>, h: set<Item>, items: seq<Item>,
      worstCase: real, r: seq<Item>)
    requires TopOf(order, maxSize, start, h) && BatchIsSafe(maxSize, start) && AllBetter(order, items, worstCase)
    requires TopOf(order, maxSize, r, Items(BatchPool(order, maxSize, Threshold(start, worstCase), start, items)))
    ensures TopOf(order, maxSize, r, h + Items(items))
  {
    var threshold := Threshold(start, worstCase);
    var pool := Items(BatchPool(order, maxSize, threshold, start, items));
    BatchSkips(order, maxSize, threshold, start, items);
    var t := h + Items(items);
    if maxSize == 0 || start == [] {
      assert pool == t;
    } else {
      forall x, y | x in start && y in t && y !in pool
        ensures !IsBetter(order, y.evaluation, x.evaluation)
      {
        SkippedNoBetter(order, maxSize, start, h, x, y);
      }
    }
    EnlargeHistory(order, maxSize, start, r, pool, t);
  }

  /** Neither an item that the full queue had turned down before, nor one that does not improve
      on its last item, betters an item of the queue. */
  lemma SkippedNoBetter(order: SortOrder, maxSize: nat, start: seq<Item>, h: set<Item>, x: Item, y: Item)
    requires TopOf(order, maxSize, start, h) && x in start && y !in start
    requires y in h || !IsBetter(order, y.evaluation, start[|start| - 1].evaluation)
    ensures !IsBetter(order, y.evaluation, x.evaluation)
  {
    if y !in h {
      var i :| 0 <= i < |start| && start[i] == x;
      assert !IsBetter(order, start[|start| - 1].evaluation, x.evaluation);
    }
  }

  /** A safe batch ends with the same evaluations as adding its items one by one. */
  lemma BatchEqualsSingly(order: SortOrder, maxSize: nat, start: seq<Item>, items: seq<Item>, worstCase: real,
                          r: seq<Item>, states: seq<seq<Item>>)
    requires Valid(order, maxSize, start) && BatchIsSafe(maxSize, start) && AllBetter(order, items, worstCase)
    requires TopOf(order, maxSize, r, Items(BatchPool(order, maxSize, Threshold(start, worstCase), start, items)))
    requires OneByOne(order, maxSize, states, items) && states[0] == start
    ensures var s := states[|items|];
            |r| == |s| && forall i :: 0 <= i < |r| ==> r[i].evaluation == s[i].evaluation
  {
    var h := Items(start);
    BatchKeepsTop(order, maxSize, start, h, items, worstCase, r);
    OnlineTop(order, maxSize, states, items, h);
    TopIsUnique(order, maxSize, r, states[|items|], h + Items(items));
  }

  /** An id above all ids of the queue. */
  function FreshId(q: seq<Item>): (n: int)
    ensures forall x :: x in q ==> x.id < n
  {
    if q == [] then 0
    else
      var n := FreshId(q[1..]);
      if q[0].id < n then n else q[0].id + 1
  }

  /** `n` items of the same evaluation with ids from `id` on. */
  function Copies(n: nat, id: int, evaluation: real): seq<Item> { seq(n, k => Item(id + k, evaluation)) }

  lemma {:induction false} BatchFillsUp(order: SortOrder, maxSize: nat, threshold: real, q: seq<Item>, bad: seq<Item>,
      last: Item)
    requires |q| + |bad| == maxSize > 0 && !IsBetter(order, last.evaluation, threshold)
    ensures BatchPool(order, maxSize, threshold, q, bad + [last]) == q + bad
    decreases |bad|
  {
    if bad == [] {
      assert bad + [last] == [last] && q + bad == q;
      assert [last][1..] == [];
    } else {
      assert (bad + [last])[1..] == bad[1..] + [last];
      assert q + [bad[0]] + bad[1..] == q + bad;
      BatchFillsUp(order, maxSize, threshold, q + [bad[0]], bad[1..], last);
    }
  }

  lemma PaddedQueue(order: SortOrder, q: seq<Item>, n: nat, evaluation: real)
    requires BestFirst(order, q) && DistinctIds(q)
    requires forall x :: x in q ==> !IsBetter(order, evaluation, x.evaluation)
    ensures var r := q + Copies(n, FreshId(q), evaluation); BestFirst(order, r) && DistinctIds(r)
  {
    var r := q + Copies(n, FreshId(q), evaluation);
    assert forall i :: 0 <= i < |q| ==> r[i] == q[i] && q[i] in q;
    assert forall i :: |q| <= i < |r| ==> r[i] == Item(FreshId(q) + i - |q|, evaluation);
  }

  /** A batch of `bad` items that just fill the queue, followed by a `better` one. */
  function FillingBatch(maxSize: nat, start: seq<Item>, bad: real, better: real): seq<Item>
    requires |start| < maxSize
  {
    var n := maxSize - |start|;
    Copies(n, FreshId(start), bad) + [Item(FreshId(start) + n, better)]
  }

  /** What adding a batch may leave, sorting being free to choose. */
  ghost predicate BatchOutcome(order: SortOrder, maxSize: nat, start: seq<Item>, items: seq<Item>, worstCase: real,
      r: seq<Item>) {
    TopOf(order, maxSize, r, Items(BatchPool(order, maxSize, Threshold(start, worstCase), start, items)))
  }

  /** What it should leave. */
  ghost predicate BatchCorrect(order: SortOrder, maxSize: nat, start: seq<Item>, items: seq<Item>, r: seq<Item>) {
    TopOf(order, maxSize, r, Items(start) + Items(items))
  }

  /** If one queue holds a whole history, so does every other one that is its top. */
  lemma TopIsWhole(order: SortOrder, maxSize: nat, w: seq<Item>, r: seq<Item>)
    requires TopOf(order, maxSize, w, Items(w)) && TopOf(order, maxSize, r, Items(w))
    ensures Items(r) == Items(w)
  {
    TopIsUnique(order, maxSize, w, r, Items(w));
    DistinctCount(w);
    DistinctCount(r);
    SubsetSmaller(Items(w) - Items(r), Items(w));
    assert |Items(w) - Items(r)| == |Items(w)| - |Items(r)|;
  }

  ghost predicate AlwaysWrong(order: SortOrder, maxSize: nat, start: seq<Item>, items: seq<Item>, worstCase: real) {
    forall r :: BatchOutcome(order, maxSize, start, items, worstCase, r) ==>
      !BatchCorrect(order, maxSize, start, items, r)
  }

  /** The queue that the filling batch leaves. */
  function Filled(maxSize: nat, start: seq<Item>, bad: real): seq<Item>
    requires |start| < maxSize
  {
    start + Copies(maxSize - |start|, FreshId(start), bad)
  }

  /** What is worse than the last item is worse than all. */
  lemma WorseThanAll(order: SortOrder, q: seq<Item>, bad: real)
    requires BestFirst(order, q) && q != [] && IsBetter(order, q[|q| - 1].evaluation, bad)
    ensures forall x :: x in q ==> !IsBetter(order, bad, x.evaluation)
  {
    forall x | x in q ensures !IsBetter(order, bad, x.evaluation) {
      var i :| 0 <= i < |q| && q[i] == x;
      assert !IsBetter(order, q[|q| - 1].evaluation, x.evaluation);
    }
  }

  lemma FilledIsTop(order: SortOrder, maxSize: nat, start: seq<Item>, bad: real)
    requires BestFirst(order, start) && DistinctIds(start) && 0 < |start| < maxSize
    requires IsBetter(order, start[|start| - 1].evaluation, bad)
    ensures var whole := Filled(maxSize, start, bad); TopOf(order, maxSize, whole, Items(whole))
  {
    var whole := Filled(maxSize, start, bad);
    WorseThanAll(order, start, bad);
    PaddedQueue(order, start, maxSize - |start|, bad);
    CutIsTop(order, maxSize, whole, Items(whole));
    assert Cut(maxSize, whole) == whole;
  }

  lemma FilledIsOutcome(order: SortOrder, maxSize: nat, start: seq<Item>, worstCase: real, bad: real, better: real)
    requires BestFirst(order, start) && DistinctIds(start) && 0 < |start| < maxSize
    requires var w := start[|start| - 1].evaluation; IsBetter(order, w, better) && IsBetter(order, w, bad)
    ensures var items, whole := FillingBatch(maxSize, start, bad, better), Filled(maxSize, start, bad);
            BatchPool(order, maxSize, Threshold(start, worstCase), start, items) == whole &&
            TopOf(order, maxSize, whole, Items(whole))
  {
    var n, threshold := maxSize - |start|, Threshold(start, worstCase);
    var last := Item(FreshId(start) + n, better);
    assert !IsBetter(order, last.evaluation, threshold);
    BatchFillsUp(order, maxSize, threshold, start, Copies(n, FreshId(start), bad), last);
    FilledIsTop(order, maxSize, start, bad);
  }

  /** A queue that holds all bad items is not the top of a history with the better one. */
  lemma FilledIsWrong(order: SortOrder, maxSize: nat, start: seq<Item>, bad: real, better: real, r: seq<Item>)
    requires 0 < |start| < maxSize && IsBetter(order, better, bad)
    requires Items(r) == Items(Filled(maxSize, start, bad))
    ensures !BatchCorrect(order, maxSize, start, FillingBatch(maxSize, start, bad, better), r)
  {
    var whole, items := Filled(maxSize, start, bad), FillingBatch(maxSize, start, bad, better);
    var first, last := whole[|start|], items[|items| - 1];
    assert first in Items(whole) && first in r && first.evaluation == bad;
    assert last in items && last.evaluation == better;
    assert last !in Items(whole);
  }

  /** For every partly filled queue there is a batch that it always gets wrong: the queue fills
      up with bad items and then turns down a better one, because the threshold is the old worst
      item. */
  lemma UnsafeBatch(order: SortOrder, maxSize: nat, start: seq<Item>, worstCase: real)
    returns (items: seq<Item>, whole: seq<Item>)
    requires Valid(order, maxSize, start) && !BatchIsSafe(maxSize, start) && AllBetter(order, start, worstCase)
    ensures AllBetter(order, items, worstCase) && Consistent(Items(start) + Items(items))
    ensures BatchOutcome(order, maxSize, start, items, worstCase, whole)
    ensures AlwaysWrong(order, maxSize, start, items, worstCase)
  {
    var better, bad := Between(order, start[|start| - 1].evaluation, worstCase);
    items, whole := FillingBatch(maxSize, start, bad, better), Filled(maxSize, start, bad);
    FilledIsOutcome(order, maxSize, start, worstCase, bad, better);
    forall r | BatchOutcome(order, maxSize, start, items, worstCase, r)
      ensures !BatchCorrect(order, maxSize, start, items, r)
    {
      TopIsWhole(order, maxSize, whole, r);
      FilledIsWrong(order, maxSize, start, bad, better, r);
    }
    FreshItemsConsistent(start, maxSize - |start|, better, bad);
  }

  /** Two evaluations between the worst item and the worst case. */
  lemma Between(order: SortOrder, worst: real, worstCase: real) returns (better: real, bad: real)
    requires IsBetter(order, worst, worstCase)
    ensures IsBetter(order, worst, better) && IsBetter(order, better, bad) && IsBetter(order, bad, worstCase)
    ensures IsBetter(order, worst, bad) && IsBetter(order, better, worstCase)
  {
    var step := (worstCase - worst) / 3.0;
    better, bad := worst + step, worst + 2.0 * step;
  }

  lemma FreshItemsConsistent(start: seq<Item>, n: nat, better: real, bad: real)
    requires DistinctIds(start)
    ensures Consistent(Items(start) + Items(Copies(n, FreshId(start), bad) + [Item(FreshId(start) + n, better)]))
  {
  }

  /** A batch of items with distinct meanings of ids, better than the worst case. */
  ghost predicate Admissible(order: SortOrder, start: seq<Item>, items: seq<Item>, worstCase: real) {
    AllBetter(order, items, worstCase) && Consistent(Items(start) + Items(items))
  }

  /** Exactly the safe queues deal with every batch correctly; every other queue gets some batch
      wrong, however items of equal evaluation are sorted. */
  lemma BatchSafeIffExact(order: SortOrder, maxSize: nat, start: seq<Item>, worstCase: real)
    requires Valid(order, maxSize, start) && AllBetter(order, start, worstCase)
    ensures BatchIsSafe(maxSize, start) <==>
            forall items, r | Admissible(order, start, items, worstCase) &&
              BatchOutcome(order, maxSize, start, items, worstCase, r) ::
              BatchCorrect(order, maxSize, start, items, r)
    ensures !BatchIsSafe(maxSize, start) <==>
            exists items :: Admissible(order, start, items, worstCase) &&
              AlwaysWrong(order, maxSize, start, items, worstCase)
  {
    if BatchIsSafe(maxSize, start) {
      forall items, r | Admissible(order, start, items, worstCase) &&
        BatchOutcome(order, maxSize, start, items, worstCase, r)
        ensures BatchCorrect(order, maxSize, start, items, r)
      {
        BatchKeepsTop(order, maxSize, start, Items(start), items, worstCase, r);
      }
      forall items | Admissible(order, start, items, worstCase)
        ensures !AlwaysWrong(order, maxSize, start, items, worstCase)
      {
        var pool := BatchPool(order, maxSize, Threshold(start, worstCase), start, items);
        BatchSkips(order, maxSize, Threshold(start, worstCase), start, items);
        var r := SomeTop(order, maxSize, Items(pool));
        BatchKeepsTop(order, maxSize, start, Items(start), items, worstCase, r);
        assert BatchOutcome(order, maxSize, start, items, worstCase, r) &&
          BatchCorrect(order, maxSize, start, items, r);
      }
    } else {
      var items, whole := UnsafeBatch(order, maxSize, start, worstCase);
      assert Admissible(order, start, items, worstCase) && !BatchCorrect(order, maxSize, start, items, whole);
    }
  }

  /** Every consistent history has a top. */
  lemma {:induction false} SomeTop(order: SortOrder, maxSize: nat, h: set<Item>) returns (r: seq<Item>)
    requires Consistent(h)
    ensures TopOf(order, maxSize, r, h)
  {
    var all := SortedSet(order, h);
    CutIsTop(order, maxSize, all, h);
    r := Cut(maxSize, all);
  }

  lemma {:induction false} SortedSet(order: SortOrder, h: set<Item>) returns (q: seq<Item>)
    requires Consistent(h)
    ensures BestFirst(order, q) && DistinctIds(q) && Items(q) == h
    decreases |h|
  {
    if h == {} {
      q := [];
    } else {
      var x := BestOf(order, h);
      var rest := SortedSet(order, h - {x});
      q := [x] + rest;
      BestInFront(order, x, rest, h);
    }
  }

  lemma BestInFront(order: SortOrder, x: Item, rest: seq<Item>, h: set<Item>)
    requires Consistent(h) && x in h && forall y :: y in h ==> !IsBetter(order, y.evaluation, x.evaluation)
    requires BestFirst(order, rest) && DistinctIds(rest) && Items(rest) == h - {x}
    ensures BestFirst(order, [x] + rest) && DistinctIds([x] + rest) && Items([x] + rest) == h
  {
    forall i | 0 <= i < |rest| ensures rest[i].id != x.id && !IsBetter(order, rest[i].evaluation, x.evaluation) {
      assert rest[i] in Items(rest);
    }
    assert Items([x] + rest) == {x} + Items(rest);
  }

  lemma {:induction false} BestOf(order: SortOrder, h: set<Item>) returns (x: Item)
    requires h != {}
    ensures x in h && forall y :: y in h ==> !IsBetter(order, y.evaluation, x.evaluation)
    decreases |h|
  {
    x :| x in h;
    if h != {x} {
      var y := BestOf(order, h - {x});
      if IsBetter(order, y.evaluation, x.evaluation) { x := y; }
    }
  }

  /** Shrinking a queue keeps it the best of its history; 0 empties it. */
  lemma ShrinkKeepsTop(order: SortOrder, maxSize: nat, q: seq<Item>, h: set<Item>, newSize: nat)
    requires TopOf(order, maxSize, q, h) && 0 < newSize <= |q|
    ensures TopOf(order, newSize, q[..newSize], h)
  {
    var r := q[..newSize];
    forall x, y | x in r && y in h && y !in r
      ensures !IsBetter(order, y.evaluation, x.evaluation)
    {
      if y in q {
        var i :| 0 <= i < |r| && r[i] == x;
        var j :| 0 <= j < |q| && q[j] == y;
        assert forall k :: 0 <= k < |r| ==> q[k] == r[k] && r[k] in r;
      }
    }
  }
}
