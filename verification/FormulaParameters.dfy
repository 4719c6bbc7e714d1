/** What the entries of a parameter map bind: their values, and in which cases the order of the
    entries has an influence. */
module FormulaParameters {
  import opened FormulaAst
  import opened Decimal
  import opened FormulaGrammar
  import opened FormulaSyntax
  import opened FormulaSubstitution
  import opened FormulaMeaning
  import opened FormulaParser
  import opened Wrappers

  // ----- the values of the variables -----

  datatype Named = Named(name: string, value: real)

  function IndexedValues(key: string, values: seq<real>, i: nat): seq<Named>
    requires i <= |values|
    decreases |values| - i
  {
    if i == |values| then [] else [Named(IndexedName(key, i), values[i])] + IndexedValues(key, values, i + 1)
  }

  function EntryValues(e: Entry): seq<Named> {
    if |e.values| == 1 then [Named(e.key, e.values[0])] else IndexedValues(e.key, e.values, 0)
  }

  function NamedValues(vm: ParameterMap): seq<Named> {
    if vm == [] then [] else EntryValues(vm[0]) + NamedValues(vm[1..])
  }

  /** The first value of a name counts. */
  function FirstValues(env: Environment, named: seq<Named>): Environment
    decreases |named|
  {
    if named == [] then env
    else
      var n := named[0];
      FirstValues(if n.name in env then env else env[n.name := n.value], named[1..])
  }

  /** The variables that a parameter map defines. */
  function Variables(vm: ParameterMap): Environment { FirstValues(map[], NamedValues(vm)) }

  function Texts(toText: real -> string, named: seq<Named>): seq<Binding> {
    seq(|named|, i requires 0 <= i < |named| => Binding(named[i].name, toText(named[i].value)))
  }

  lemma TextsAppend(toText: real -> string, a: seq<Named>, b: seq<Named>)
    ensures Texts(toText, a + b) == Texts(toText, a) + Texts(toText, b)
  {
  }

  lemma {:induction false} IndexedAreTexts(toText: real -> string, key: string, values: seq<real>, i: nat)
    requires i <= |values|
    ensures IndexedBindings(toText, key, values, i) == Texts(toText, IndexedValues(key, values, i))
    decreases |values| - i
  {
    if i < |values| {
      var n := Named(IndexedName(key, i), values[i]);
      IndexedAreTexts(toText, key, values, i + 1);
      TextsAppend(toText, [n], IndexedValues(key, values, i + 1));
      assert Texts(toText, [n]) == [Binding(n.name, toText(n.value))];
    }
  }

  lemma {:induction false} BindingsAreTexts(toText: real -> string, vm: ParameterMap)
    ensures Bindings(toText, vm) == Texts(toText, NamedValues(vm))
  {
    if vm != [] {
      IndexedAreTexts(toText, vm[0].key, vm[0].values, 0);
      BindingsAreTexts(toText, vm[1..]);
      TextsAppend(toText, EntryValues(vm[0]), NamedValues(vm[1..]));
    }
  }

  /** The text of every value stands for the value. */
  ghost predicate ReadBack(consts: Constants, toText: real -> string, vm: ParameterMap) {
    forall i, j :: 0 <= i < |vm| && 0 <= j < |vm[i].values| ==>
      NumeralValue(consts, toText(vm[i].values[j])) == vm[i].values[j]
  }

  ghost predicate NamedReadBack(consts: Constants, toText: real -> string, named: seq<Named>) {
    forall n :: n in named ==> NumeralValue(consts, toText(n.value)) == n.value
  }

  lemma {:induction false} IndexedReadBack(consts: Constants, toText: real -> string, key: string,
      values: seq<real>, i: nat)
    requires i <= |values| && forall j :: 0 <= j < |values| ==> NumeralValue(consts, toText(values[j])) == values[j]
    ensures NamedReadBack(consts, toText, IndexedValues(key, values, i))
    decreases |values| - i
  {
    if i < |values| {
      IndexedReadBack(consts, toText, key, values, i + 1);
    }
  }

  lemma {:induction false} AllReadBack(consts: Constants, toText: real -> string, vm: ParameterMap)
    requires ReadBack(consts, toText, vm)
    ensures NamedReadBack(consts, toText, NamedValues(vm))
  {
    if vm != [] {
      IndexedReadBack(consts, toText, vm[0].key, vm[0].values, 0);
      AllReadBack(consts, toText, vm[1..]);
    }
  }

  lemma NumberIsValue(consts: Constants, sub: Pasted, name: string, text: string, value: real)
    requires NumeralValue(consts, text) == value
    ensures var env := Numbers(consts, sub);
            Numbers(consts, PasteOne(sub, name, text)) == if name in env then env else env[name := value]
  {
  }

  /** Pasting texts and reading them gives the values. */
  lemma {:induction false} NumbersAreValues(consts: Constants, toText: real -> string, sub: Pasted, named: seq<Named>)
    requires NamedReadBack(consts, toText, named)
    ensures Numbers(consts, FirstWins(sub, Texts(toText, named))) == FirstValues(Numbers(consts, sub), named)
    decreases |named|
  {
    if named != [] {
      var n := named[0];
      var more := PasteOne(sub, n.name, toText(n.value));
      assert Texts(toText, named)[1..] == Texts(toText, named[1..]);
      NumberIsValue(consts, sub, n.name, toText(n.value), n.value);
      NumbersAreValues(consts, toText, more, named[1..]);
    }
  }

  /** If every value can be read back from its text, evaluating a template with parameters
      computes the template's own tree with the values as variables. */
  lemma ValuesComputed(lib: MathLib, consts: Constants, toText: real -> string, e: Sum, trailing: string,
      vm: ParameterMap)
    requires TemplateNames(consts) && ValidSum(consts, e) && PlainSum(e) && AllSpace(trailing)
    requires ProperParameters(toText, vm) && !HasEmptyVector(vm) && ReadBack(consts, toText, vm)
    ensures var r := EvaluationOf(lib, consts, Processed(toText, PrintSum(e, map[], trailing), vm));
            var sub := FirstWins(map[], Bindings(toText, vm));
            sub.Keys == Variables(vm).Keys &&
            if BoundSum(e, sub) then
              var x := TreeSum(consts, Variables(vm), e);
              WellFormed(x) && Computes(lib, x, r)
            else r == ParseFailure
  {
    var sub := FirstWins(map[], Bindings(toText, vm));
    TemplateComputes(lib, consts, toText, e, trailing, vm);
    BindingsAreTexts(toText, vm);
    AllReadBack(consts, toText, vm);
    NumbersAreValues(consts, toText, map[], NamedValues(vm));
    assert Numbers(consts, map[]) == map[];
    assert sub.Keys == Numbers(consts, sub).Keys;
  }

  // ----- the order of the entries -----

  /** A map binds what its entries bind. */
  lemma {:induction false} BindingsMember(toText: real -> string, vm: ParameterMap, b: Binding)
    ensures b in Bindings(toText, vm) <==> exists i :: 0 <= i < |vm| && b in EntryBindings(toText, vm[i])
  {
    if vm != [] {
      BindingsMember(toText, vm[1..], b);
      if b in Bindings(toText, vm[1..]) {
        var i :| 0 <= i < |vm| - 1 && b in EntryBindings(toText, vm[1..][i]);
        assert vm[1..][i] == vm[i + 1];
      }
      if i :| 0 < i < |vm| && b in EntryBindings(toText, vm[i]) {
        assert vm[1..][i - 1] == vm[i];
      }
    }
  }

  lemma SameBinding(toText: real -> string, first: ParameterMap, second: ParameterMap, b: Binding)
    requires forall entry :: entry in first ==> entry in second
    requires b in Bindings(toText, first)
    ensures b in Bindings(toText, second)
  {
    BindingsMember(toText, first, b);
    BindingsMember(toText, second, b);
    var i :| 0 <= i < |first| && b in EntryBindings(toText, first[i]);
    assert first[i] in first;
    var j :| 0 <= j < |second| && second[j] == first[i];
  }

  lemma SameBindings(toText: real -> string, first: ParameterMap, second: ParameterMap)
    requires forall entry :: entry in first ==> entry in second
    ensures forall b :: b in Bindings(toText, first) ==> b in Bindings(toText, second)
    ensures HasEmptyVector(first) ==> HasEmptyVector(second)
  {
    forall b | b in Bindings(toText, first) ensures b in Bindings(toText, second) {
      SameBinding(toText, first, second, b);
    }
    if HasEmptyVector(first) {
      var i :| 0 <= i < |first| && first[i].values == [];
      assert first[i] in first;
      var j :| 0 <= j < |second| && second[j] == first[i];
    }
  }

  lemma ProperRearranged(toText: real -> string, first: ParameterMap, second: ParameterMap)
    requires ProperParameters(toText, first) && forall entry :: entry in second ==> entry in first
    ensures ProperParameters(toText, second)
  {
    forall i | 0 <= i < |second|
      ensures Braceless(second[i].key)
      ensures forall j :: 0 <= j < |second[i].values| ==> IsPlainNumeral(toText(second[i].values[j]))
    {
      assert second[i] in second;
      var k :| 0 <= k < |first| && first[k] == second[i];
    }
  }

  /** Entries whose bindings agree may be listed in any order. */
  lemma EntriesInAnyOrder(consts: Constants, toText: real -> string, e: Sum, trailing: string,
                          first: ParameterMap, second: ParameterMap)
    requires ValidSum(consts, e) && PlainSum(e) && AllSpace(trailing) && ProperParameters(toText, first)
    requires Agreeing(Bindings(toText, first)) && forall entry :: entry in first <==> entry in second
    ensures var raw := PrintSum(e, map[], trailing);
            Processed(toText, raw, first) == Processed(toText, raw, second)
  {
    SameBindings(toText, first, second);
    SameBindings(toText, second, first);
    OrderDoesNotMatter(Bindings(toText, first), Bindings(toText, second));
    ProperRearranged(toText, first, second);
    BindingsProper(toText, first);
    BindingsProper(toText, second);
    PasteAllPrints(consts, e, map[], trailing, Bindings(toText, first));
    PasteAllPrints(consts, e, map[], trailing, Bindings(toText, second));
  }

  // ----- bindings that do not agree -----

  /** The template that is a single place holder. */
  function Holder(key: string): Sum { Sum(Product(PlaceHolder("", key), NoMoreFactors), NoMoreTerms) }

  lemma HolderPrints(key: string, sub: Pasted)
    ensures PrintSum(Holder(key), sub, "") == if key in sub then sub[key] else HolderText(key)
  {
    var f := PlaceHolder("", key);
    assert PrintProductTail(NoMoreFactors, sub, "") == "" && PrintSumTail(NoMoreTerms, sub, "") == "";
    assert PrintProduct(Holder(key).first, sub, "") == PrintFactor(f, sub, "");
  }

  lemma HolderIsTemplate(consts: Constants, key: string)
    requires Braceless(key)
    ensures ValidSum(consts, Holder(key)) && PlainSum(Holder(key))
  {
    assert ValidFactor(consts, PlaceHolder("", key)) && PlainFactor(PlaceHolder("", key));
    assert ValidProduct(consts, Holder(key).first) && PlainProduct(Holder(key).first);
  }

  /** A single place holder becomes the text that its name is bound to first. */
  lemma HolderBecomes(consts: Constants, toText: real -> string, vm: ParameterMap, key: string)
    requires ProperParameters(toText, vm) && !HasEmptyVector(vm) && Braceless(key)
    requires key in FirstWins(map[], Bindings(toText, vm))
    ensures var sub := FirstWins(map[], Bindings(toText, vm));
            Processed(toText, PrintSum(Holder(key), map[], ""), vm) == Some(sub[key])
  {
    BindingsProper(toText, vm);
    HolderIsTemplate(consts, key);
    HolderPrints(key, FirstWins(map[], Bindings(toText, vm)));
    PasteAllPrints(consts, Holder(key), map[], "", Bindings(toText, vm));
  }

  lemma {:induction false} FirstWinsAppend(sub: Pasted, a: seq<Binding>, b: seq<Binding>)
    ensures FirstWins(sub, a + b) == FirstWins(FirstWins(sub, a), b)
    decreases |a|
  {
    if a == [] {
      assert a + b == b;
    } else {
      assert (a + b)[1..] == a[1..] + b;
      FirstWinsAppend(PasteOne(sub, a[0].name, a[0].text), a[1..], b);
    }
  }

  lemma IndexedNamesDiffer(key: string, i: nat, j: nat)
    requires i != j
    ensures IndexedName(key, i) != IndexedName(key, j)
  {
    NatTextRoundTrip(i);
    NatTextRoundTrip(j);
    var a, b := IndexedName(key, i), IndexedName(key, j);
    assert a[|key| + 1..|a| - 1] == NatText(i) && b[|key| + 1..|b| - 1] == NatText(j);
  }

  lemma {:induction false} IndexedAt(toText: real -> string, key: string, values: seq<real>, i: nat)
    requires i <= |values|
    ensures var b := IndexedBindings(toText, key, values, i);
            |b| == |values| - i &&
            forall k :: 0 <= k < |b| ==> b[k] == Binding(IndexedName(key, i + k), toText(values[i + k]))
    decreases |values| - i
  {
    if i < |values| {
      var b, tail := IndexedBindings(toText, key, values, i), IndexedBindings(toText, key, values, i + 1);
      IndexedAt(toText, key, values, i + 1);
      forall k | 0 < k < |b| ensures b[k] == Binding(IndexedName(key, i + k), toText(values[i + k])) {
        assert b[k] == tail[k - 1] && i + 1 + (k - 1) == i + k;
      }
    }
  }

  /** One entry binds different names. */
  lemma EntryAgrees(toText: real -> string, e: Entry, a: Binding, b: Binding)
    requires a in EntryBindings(toText, e) && b in EntryBindings(toText, e) && a.name == b.name
    ensures a == b
  {
    if |e.values| != 1 {
      IndexedAt(toText, e.key, e.values, 0);
      var i :| 0 <= i < |e.values| && EntryBindings(toText, e)[i] == a;
      var j :| 0 <= j < |e.values| && EntryBindings(toText, e)[j] == b;
      if i != j { IndexedNamesDiffer(e.key, i, j); }
    }
  }

  /** What an entry binds takes effect if it is listed first. */
  lemma ListedFirst(toText: real -> string, e: Entry, rest: ParameterMap, b: Binding)
    requires b in EntryBindings(toText, e)
    ensures var sub := FirstWins(map[], Bindings(toText, [e] + rest));
            b.name in sub && sub[b.name] == b.text
  {
    var own := EntryBindings(toText, e);
    assert ([e] + rest)[1..] == rest;
    FirstWinsAppend(map[], own, Bindings(toText, rest));
    FirstWinsFinds(map[], own, b.name);
    var sub := FirstWins(map[], own);
    var i :| 0 <= i < |own| && own[i] == b;
    EntryAgrees(toText, e, Binding(b.name, sub[b.name]), b);
    FirstWinsFinds(sub, Bindings(toText, rest), b.name);
  }

  /** The same entries in another order, or the same one. */
  ghost predicate Rearranged(first: ParameterMap, second: ParameterMap) { multiset(first) == multiset(second) }

  function ToFront(vm: ParameterMap, j: nat): ParameterMap
    requires j < |vm|
  {
    [vm[j]] + (vm[..j] + vm[j + 1..])
  }

  lemma ToFrontRearranges(vm: ParameterMap, j: nat)
    requires j < |vm|
    ensures Rearranged(vm, ToFront(vm, j))
  {
    assert vm == vm[..j] + ([vm[j]] + vm[j + 1..]);
  }

  lemma RearrangedMembers(first: ParameterMap, second: ParameterMap)
    requires Rearranged(first, second)
    ensures forall entry :: entry in first <==> entry in second
    ensures HasEmptyVector(first) <==> HasEmptyVector(second)
  {
    forall entry ensures entry in first <==> entry in second {
      assert entry in multiset(first) <==> entry in multiset(second);
    }
    if i :| 0 <= i < |first| && first[i].values == [] { assert first[i] in second; }
    if i :| 0 <= i < |second| && second[i].values == [] { assert second[i] in first; }
  }

  /** The formula that a template becomes depends on the order of the entries. */
  ghost predicate OrderMatters(consts: Constants, toText: real -> string, first: ParameterMap, second: ParameterMap) {
    exists e: Sum, trailing: string :: Distinguishes(consts, toText, e, trailing, first, second)
  }

  ghost predicate Distinguishes(consts: Constants, toText: real -> string, e: Sum, trailing: string,
      first: ParameterMap, second: ParameterMap) {
    ValidSum(consts, e) && PlainSum(e) && AllSpace(trailing) &&
    var raw := PrintSum(e, map[], trailing);
    Processed(toText, raw, first) != Processed(toText, raw, second)
  }

  /** Two texts for one name: the other one takes effect if its entry comes to the front. */
  lemma DisagreementShows(consts: Constants, toText: real -> string, vm: ParameterMap) returns (second: ParameterMap)
    requires ProperParameters(toText, vm) && !HasEmptyVector(vm) && !Agreeing(Bindings(toText, vm))
    ensures Rearranged(vm, second) && OrderMatters(consts, toText, vm, second)
  {
    var bindings := Bindings(toText, vm);
    var sub := FirstWins(map[], bindings);
    var a, b :| a in bindings && b in bindings && a.name == b.name && a.text != b.text;
    FirstWinsFinds(map[], bindings, a.name);
    var i :| 0 <= i < |bindings| && bindings[i] == a;
    var other := if sub[a.name] == a.text then b else a;
    BindingsMember(toText, vm, other);
    var j :| 0 <= j < |vm| && other in EntryBindings(toText, vm[j]);
    second := ToFront(vm, j);
    ToFrontRearranges(vm, j);
    RearrangedMembers(vm, second);
    ProperRearranged(toText, vm, second);
    ListedFirst(toText, vm[j], vm[..j] + vm[j + 1..], other);
    BindingsProper(toText, vm);
    HolderIsTemplate(consts, a.name);
    HolderBecomes(consts, toText, vm, a.name);
    HolderBecomes(consts, toText, second, a.name);
    assert Distinguishes(consts, toText, Holder(a.name), "", vm, second);
  }

  /** The order of the entries has no influence on any template exactly if there is an empty
      vector, which is an exception in any order, or all bindings of a name agree. */
  lemma AnyOrderExact(consts: Constants, toText: real -> string, vm: ParameterMap)
    requires ProperParameters(toText, vm)
    ensures (forall second :: Rearranged(vm, second) ==> !OrderMatters(consts, toText, vm, second)) <==>
            HasEmptyVector(vm) || Agreeing(Bindings(toText, vm))
  {
    if HasEmptyVector(vm) || Agreeing(Bindings(toText, vm)) {
      forall second | Rearranged(vm, second) ensures !OrderMatters(consts, toText, vm, second) {
        RearrangedMembers(vm, second);
        forall e: Sum, trailing: string ensures !Distinguishes(consts, toText, e, trailing, vm, second) {
          if ValidSum(consts, e) && PlainSum(e) && AllSpace(trailing) && !HasEmptyVector(vm) {
            EntriesInAnyOrder(consts, toText, e, trailing, vm, second);
          }
        }
      }
    } else {
      var second := DisagreementShows(consts, toText, vm);
    }
  }

  // ----- keys without brackets -----

  /** What comes in front of the first bracket. */
  function Base(name: string): string {
    if name == "" || name[0] == '[' then "" else [name[0]] + Base(name[1..])
  }

  lemma {:induction false} BaseOfKey(key: string, rest: string)
    requires '[' !in key && (rest == "" || rest[0] == '[')
    ensures Base(key + rest) == key
  {
    if key == "" {
      assert key + rest == rest;
    } else {
      assert key[0] in key;
      assert (key + rest)[1..] == key[1..] + rest;
      BaseOfKey(key[1..], rest);
    }
  }

  /** The keys of a map do not repeat. */
  ghost predicate PlainKeys(vm: ParameterMap) {
    (forall i :: 0 <= i < |vm| ==> '[' !in vm[i].key) &&
    (forall i, j :: 0 <= i < j < |vm| ==> vm[i].key != vm[j].key)
  }

  lemma BaseOfIndexed(key: string, i: nat)
    requires '[' !in key
    ensures Base(IndexedName(key, i)) == key
  {
    var bracket := "[" + NatText(i) + "]";
    assert bracket[0] == '[' && IndexedName(key, i) == key + bracket;
    BaseOfKey(key, bracket);
  }

  lemma IndexAt(toText: real -> string, e: Entry, b: Binding) returns (i: nat)
    requires |e.values| != 1 && b in EntryBindings(toText, e)
    ensures i < |e.values| && b.name == IndexedName(e.key, i)
  {
    IndexedAt(toText, e.key, e.values, 0);
    i :| 0 <= i < |e.values| && EntryBindings(toText, e)[i] == b;
  }

  lemma BaseIsKey(toText: real -> string, e: Entry, b: Binding)
    requires '[' !in e.key && b in EntryBindings(toText, e)
    ensures Base(b.name) == e.key
  {
    if |e.values| == 1 {
      BaseOfKey(e.key, "");
      assert e.key + "" == e.key;
    } else {
      var i := IndexAt(toText, e, b);
      BaseOfIndexed(e.key, i);
    }
  }

  lemma EntryOf(toText: real -> string, vm: ParameterMap, b: Binding) returns (i: nat)
    requires PlainKeys(vm) && b in Bindings(toText, vm)
    ensures i < |vm| && b in EntryBindings(toText, vm[i]) && Base(b.name) == vm[i].key
  {
    BindingsMember(toText, vm, b);
    i :| 0 <= i < |vm| && b in EntryBindings(toText, vm[i]);
    BaseIsKey(toText, vm[i], b);
  }

  /** Without brackets in keys no name is bound twice. */
  lemma PlainKeysAgree(toText: real -> string, vm: ParameterMap)
    requires PlainKeys(vm)
    ensures Agreeing(Bindings(toText, vm))
  {
    var bindings := Bindings(toText, vm);
    forall a, b | a in bindings && b in bindings && a.name == b.name ensures a.text == b.text {
      var i := EntryOf(toText, vm, a);
      var j := EntryOf(toText, vm, b);
      EntryAgrees(toText, vm[i], a, b);
    }
  }

  lemma SeveralBinds(toText: real -> string, key: string, values: seq<real>, i: nat)
    requires |values| > 1 && i < |values|
    ensures Binding(IndexedName(key, i), toText(values[i])) in EntryBindings(toText, Entry(key, values))
  {
    IndexedAt(toText, key, values, 0);
    assert EntryBindings(toText, Entry(key, values))[i] == Binding(IndexedName(key, i), toText(values[i]));
  }

  /** With brackets two keys can bind the same name; then the one listed first wins. */
  lemma KeysCollide(consts: Constants, toText: real -> string, several: Entry, i: nat, single: Entry)
    requires |several.values| > 1 && i < |several.values|
    requires |single.values| == 1 && single.key == several.key + "[" + NatText(i) + "]"
    requires ProperParameters(toText, [several, single])
    ensures Processed(toText, "{{" + single.key + "}}", [several, single]) == Some(toText(several.values[i]))
    ensures Processed(toText, "{{" + single.key + "}}", [single, several]) == Some(toText(single.values[0]))
  {
    SeveralBinds(toText, several.key, several.values, i);
    assert [several, single][1].key == single.key;
    WinsInFront(consts, toText, several, single, Binding(single.key, toText(several.values[i])));
    ProperRearranged(toText, [several, single], [single, several]);
    WinsInFront(consts, toText, single, several, Binding(single.key, toText(single.values[0])));
  }

  lemma WinsInFront(consts: Constants, toText: real -> string, e: Entry, later: Entry, b: Binding)
    requires b in EntryBindings(toText, e) && Braceless(b.name) && e.values != [] && later.values != []
    requires ProperParameters(toText, [e, later])
    ensures Processed(toText, HolderText(b.name), [e, later]) == Some(b.text)
  {
    assert [e, later] == [e] + [later];
    ListedFirst(toText, e, [later], b);
    HolderPrints(b.name, map[]);
    HolderBecomes(consts, toText, [e, later], b.name);
  }

  // ----- which place holders an entry fills -----

  lemma TextsProper(toText: real -> string, key: string, values: seq<real>)
    requires '{' !in key && '}' !in key && forall j :: 0 <= j < |values| ==> IsPlainNumeral(toText(values[j]))
    ensures ProperParameters(toText, [Entry(key, values)])
  {
    var vm := [Entry(key, values)];
    assert forall i :: 0 <= i < |vm| ==> vm[i] == Entry(key, values);
  }

  /** With several values, the place holders are the key with an index that starts at 0. */
  lemma IndexLaw(consts: Constants, toText: real -> string, key: string, values: seq<real>, i: nat)
    requires '{' !in key && '}' !in key && forall j :: 0 <= j < |values| ==> IsPlainNumeral(toText(values[j]))
    requires |values| > 1 && i < |values|
    ensures Processed(toText, "{{" + key + "[" + NatText(i) + "]}}", [Entry(key, values)]) == Some(toText(values[i]))
  {
    var e, name := Entry(key, values), IndexedName(key, i);
    TextsProper(toText, key, values);
    SeveralBinds(toText, key, values, i);
    IndexedNameBraceless(key, i);
    FilledAlone(consts, toText, e, Binding(name, toText(values[i])));
    IndexedText(key, NatText(i));
  }

  lemma IndexedText(key: string, index: string)
    ensures "{{" + key + "[" + index + "]}}" == HolderText(key + "[" + index + "]")
  {
  }

  /** A single value fills the place holder with the key alone. */
  lemma SingleLaw(consts: Constants, toText: real -> string, key: string, value: real)
    requires '{' !in key && '}' !in key && IsPlainNumeral(toText(value))
    ensures Processed(toText, "{{" + key + "}}", [Entry(key, [value])]) == Some(toText(value))
  {
    TextsProper(toText, key, [value]);
    FilledAlone(consts, toText, Entry(key, [value]), Binding(key, toText(value)));
  }

  lemma FilledAlone(consts: Constants, toText: real -> string, e: Entry, b: Binding)
    requires ProperParameters(toText, [e]) && e.values != [] && b in EntryBindings(toText, e) && Braceless(b.name)
    ensures Processed(toText, HolderText(b.name), [e]) == Some(b.text)
  {
    assert [e] + [] == [e];
    ListedFirst(toText, e, [], b);
    HolderPrints(b.name, map[]);
    HolderBecomes(consts, toText, [e], b.name);
  }

  lemma LeftAlone(consts: Constants, toText: real -> string, e: Entry, name: string)
    requires ProperParameters(toText, [e]) && e.values != [] && Braceless(name)
    requires forall b :: b in EntryBindings(toText, e) ==> b.name != name
    ensures Processed(toText, HolderText(name), [e]) == Some(HolderText(name))
  {
    var bindings := Bindings(toText, [e]);
    assert [e][1..] == [] && Bindings(toText, []) == [];
    assert bindings == EntryBindings(toText, e) + [] == EntryBindings(toText, e);
    FirstWinsFinds(map[], bindings, name);
    assert forall i :: 0 <= i < |bindings| ==> bindings[i] in bindings;
    BindingsProper(toText, [e]);
    HolderIsTemplate(consts, name);
    HolderPrints(name, map[]);
    HolderPrints(name, FirstWins(map[], bindings));
    PasteAllPrints(consts, Holder(name), map[], "", bindings);
  }

  /** The key alone is left as it is if there are several values, and so is an index that is too
      large. */
  lemma SeveralLeaveLaw(consts: Constants, toText: real -> string, key: string, values: seq<real>, i: nat)
    requires '{' !in key && '}' !in key && forall j :: 0 <= j < |values| ==> IsPlainNumeral(toText(values[j]))
    requires |values| > 1 && i >= |values|
    ensures Processed(toText, "{{" + key + "}}", [Entry(key, values)]) == Some("{{" + key + "}}")
    ensures var text := "{{" + key + "[" + NatText(i) + "]}}";
            Processed(toText, text, [Entry(key, values)]) == Some(text)
  {
    var e := Entry(key, values);
    TextsProper(toText, key, values);
    forall b | b in EntryBindings(toText, e) ensures b.name != key && b.name != IndexedName(key, i) {
      var k := IndexAt(toText, e, b);
      IndexedNamesDiffer(key, k, i);
      assert |IndexedName(key, k)| > |key|;
    }
    IndexedNameBraceless(key, i);
    LeftAlone(consts, toText, e, key);
    LeftAlone(consts, toText, e, IndexedName(key, i));
    IndexedText(key, NatText(i));
  }

  /** A single value leaves a place holder with an index alone. */
  lemma SingleLeavesLaw(consts: Constants, toText: real -> string, key: string, value: real, i: nat)
    requires '{' !in key && '}' !in key && IsPlainNumeral(toText(value))
    ensures var text := "{{" + key + "[" + NatText(i) + "]}}";
            Processed(toText, text, [Entry(key, [value])]) == Some(text)
  {
    TextsProper(toText, key, [value]);
    IndexedNameBraceless(key, i);
    assert |IndexedName(key, i)| > |key|;
    LeftAlone(consts, toText, Entry(key, [value]), IndexedName(key, i));
    IndexedText(key, NatText(i));
  }
}
