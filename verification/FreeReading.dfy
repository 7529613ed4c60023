/**
 The counterexample query when the negated parent is new to the ontology and is read as a predicate of
 its own, tied to the parent by nothing but the clash clause.
 */
module FreeReading {
  import opened Bytes
  import opened Programs
  import opened Combination
  import opened Counterexample

  /** The predicate under a kind whose extension is its own. */
  function Freed(p: Predicate): Predicate {
    p.(kind := AutomatonState)
  }

  function FreedQuery(q: Program, number: nat): Program
    requires number < |q.predicates|
  {
    q.(predicates := q.predicates[number := Freed(q.predicates[number])])
  }

  /** Laws that speak neither of individuals from `n` up nor of predicates outside the table. */
  ghost predicate Blind<D(!new), V(!new)>(laws: Interp<D, V> -> bool, n: nat, table: seq<Predicate>) {
    forall i, j: Interp<D, V> :: AgreeFor(i, j, n, table) ==> laws(i) == laws(j)
  }

  ghost function Pair<D, V>(axis: Axis, d: D, e: D): seq<Value<D, V>> {
    if axis.Classes? then [Element(d)] else [Element(d), Element(e)]
  }

  /** The freed predicate holds of an element, or of a pair. */
  ghost predicate Outside<D, V>(i: Interp<D, V>, axis: Axis, freed: Predicate, d: D, e: D) {
    i.other(freed, Pair(axis, d, e))
  }

  lemma FreedHolds<D(!new), V(!new)>(
    i: Interp<D, V>, env: Assignment<D, V>, table: seq<Predicate>, number: nat, axis: Axis, arguments: seq<Term>, d: D,
      e: D)
    requires number < |table| && table[number].kind == AutomatonState && |arguments| == |Witness(axis, 0)|
    requires Denoted(i, env, arguments[0]) == Element(d) && (axis.ObjectProperties? ==>
      Denoted(i, env, arguments[1]) == Element(e))
    ensures Holds(i, table, env, Atom(number, arguments)) <==> Outside(i, axis, table[number], d, e)
  {
    assert DenotedAll(i, env, arguments) == Pair(axis, d, e);
  }

  /** The clash clause says that the freed predicate stays outside the parent, and nothing more. */
  lemma ClashMeans<D(!new), V(!new)>(
    i: Interp<D, V>, table: seq<Predicate>, axis: Axis, parent: nat, numbers: Numbers, swap: bool)
    requires Counterexample.Names(table, numbers.parent, Positive(axis), axis, parent)
    requires numbers.negated < |table| && table[numbers.negated].kind == AutomatonState
    ensures ClauseTrue(i, table, Clash(axis, numbers, swap).body, Clash(axis, numbers, swap).head)
      <==> forall d, e :: Outside(i, axis, table[numbers.negated], d, e) ==> !Instance(i, axis, parent, d, e)
  {
    hide Outside, Instance, Holds, Counterexample.Names;
    var clash := Clash(axis, numbers, swap);
    forall env: Assignment<D, V>
      ensures AllHold(i, table, env, clash.body) <==>
        Instance(i, axis, parent, env.objects(0), env.objects(1)) &&
          Outside(i, axis, table[numbers.negated], env.objects(0), env.objects(1))
    {
      WitnessHolds(i, env, table, numbers.parent, axis, parent, Variables(axis), env.objects(0), env.objects(1));
      FreedHolds(i, env, table, numbers.negated, axis, Variables(axis), env.objects(0), env.objects(1));
      var k := if swap then 1 else 0;
      assert clash.body[k] == Atom(numbers.parent, Variables(axis)) &&
        clash.body[1 - k] == Atom(numbers.negated, Variables(axis));
    }
    if ClauseTrue(i, table, clash.body, clash.head) {
      forall d, e | Outside(i, axis, table[numbers.negated], d, e) ensures !Instance(i, axis, parent, d, e) {
        var env := Assignment((x: nat) => if x == 0 then d else e, (x: nat) => i.literal(0, x));
        assert env.objects(0) == d && env.objects(1) == e;
        assert AllHold(i, table, env, clash.body) ==> SomeHolds(i, table, env, clash.head);
      }
    }
  }

  lemma FreedFact<D(!new), V(!new)>(i: Interp<D, V>, table: seq<Predicate>, number: nat, axis: Axis, n: nat)
    requires number < |table| && table[number].kind == AutomatonState
    ensures FactTrue(i, table, Atom(number, Witness(axis, n))) <==>
      Outside(i, axis, table[number], i.individual(n), i.individual(n + 1))
  {
    hide Outside, Holds;
    var fact := Atom(number, Witness(axis, n));
    forall env: Assignment<D, V>
      ensures Holds(i, table, env, fact) <==> Outside(i, axis, table[number], i.individual(n), i.individual(n + 1))
    {
      FreedHolds(i, env, table, number, axis, Witness(axis, n), i.individual(n), i.individual(n + 1));
    }
    var env := Assignment(i.individual, (x: nat) => i.literal(0, x));
    assert FactTrue(i, table, fact) ==> Holds(i, table, env, fact);
  }

  /** What the overlay says when the negated parent is free. */
  lemma FreedMeans<D(!new), V(!new)>(
    i: Interp<D, V>, p: Program, axis: Axis, child: nat, parent: nat, top: nat, bottom: nat, hash: seq<byte>,
      swap: bool,
    numbers: Numbers, q: Program)
    requires IsQuery(p, axis, child, parent, top, bottom, hash, swap, numbers, q) && Fixed(i, axis, top, bottom) &&
      parent != bottom
    ensures
      var n := Count(p.domains, IndividualSymbol);
      var d, e := i.individual(n), i.individual(n + 1);
      var freed := Freed(q.predicates[numbers.negated]);
      Satisfies(i, FreedQuery(q, numbers.negated).predicates, FreedQuery(q, numbers.negated))
      <==>
      && Instance(i, axis, child, d, e) && Outside(i, axis, freed, d, e)
      && forall x, y :: Outside(i, axis, freed, x, y) ==> !Instance(i, axis, parent, x, y)
  {
    hide Count, FactTrue, ClauseTrue, Clash, Witness, Instance, FactsTrue, Outside, Gained, Appended, WitnessSymbols;
    var n, table := Count(p.domains, IndividualSymbol), FreedQuery(q, numbers.negated).predicates;
    var d, e := i.individual(n), i.individual(n + 1);
    assert Instance(i, axis, top, d, e) && !Instance(i, axis, bottom, d, e);
    assert Counterexample.Names(table, numbers.parent, Positive(axis), axis, parent);
    assert AssertsChild(axis, child, top) ==> Counterexample.Names(table, numbers.child, Positive(axis), axis, child);
    WitnessFact(i, table, numbers.child, axis, child, n);
    FreedFact(i, table, numbers.negated, axis, n);
    ClashMeans(i, table, axis, parent, numbers, swap);
    var first := if AssertsChild(axis, child, top) then [Fact(Atom(numbers.child, Witness(axis, n)), [0])] else [];
    var second := [Fact(Atom(numbers.negated, Witness(axis, n)), [0])];
    assert q.positive == first + second;
    TwoFacts(i, table, first, second);
    TwoFacts(i, table, [], []);
    assert q.negative == [] + [];
    assert q.clauses[0] == Clash(axis, numbers, swap);
  }

  /** The freed predicate may be read as the complement of the parent without disturbing the ontology. */
  lemma ReadAsComplement<D(!new), V(!new)>(
    i: Interp<D, V>, axis: Axis, parent: nat, freed: Predicate, table: seq<Predicate>)
    returns (j: Interp<D, V>)
    requires freed !in table
    ensures AgreeFor(i, j, 0, table) && i.individual == j.individual
    ensures forall d, e :: Outside(j, axis, freed, d, e) <==> !Instance(j, axis, parent, d, e)
  {
    j := i.(other := (p: Predicate, values: seq<Value<D, V>>) =>
      if p == freed && Paired(axis, values) then !InstanceAt(i, axis, parent, values) else i.other(p, values));
    forall d, e ensures Outside(j, axis, freed, d, e) <==> !Instance(j, axis, parent, d, e) {
      var values: seq<Value<D, V>> := Pair(axis, d, e);
      assert Paired(axis, values) && (InstanceAt(i, axis, parent, values) <==> Instance(i, axis, parent, d, e));
      assert j.other(freed, values) <==> !InstanceAt(i, axis, parent, values);
    }
  }

  ghost predicate Paired<D, V>(axis: Axis, values: seq<Value<D, V>>) {
    && |values| == |Witness(axis, 0)| && values[0].Element?
    && (axis.ObjectProperties? ==> values[1].Element?)
  }

  ghost predicate InstanceAt<D, V>(i: Interp<D, V>, axis: Axis, symbol: nat, values: seq<Value<D, V>>)
    requires Paired(axis, values)
  {
    if axis.Classes? then i.concept(symbol, values[0].element) else i.role(symbol, values[0].element, values[1].element)
  }

  lemma FixedKept<D(!new), V(!new)>(i: Interp<D, V>, j: Interp<D, V>, axis: Axis, top: nat, bottom: nat)
    requires i.concept == j.concept && i.role == j.role && Fixed(i, axis, top, bottom)
    ensures Fixed(j, axis, top, bottom)
  {
    forall x, y ensures Instance(j, axis, top, x, y) && !Instance(j, axis, bottom, x, y) {
      assert Instance(i, axis, top, x, y) && !Instance(i, axis, bottom, x, y);
    }
  }

  lemma FreedModelled<D(!new), V(!new)>(
    o: Ontology, q: Program, axis: Axis, child: nat, parent: nat, top: nat, bottom: nat, hash: seq<byte>, swap: bool,
    numbers: Numbers, laws: Interp<D, V> -> bool, i: Interp<D, V>, d: D, e: D)
    requires IsQuery(o.program, axis, child, parent, top, bottom, hash, swap, numbers, q) && parent != bottom
    requires numbers.negated >= |o.program.predicates| && Numbered(o.program.predicates)
    requires Combinable(o, Some(FreedQuery(q, numbers.negated)))
    requires ProgramWithin(o.program, |o.program.predicates|, Count(o.program.domains, IndividualSymbol))
    requires Blind(laws, Count(o.program.domains, IndividualSymbol), o.program.predicates)
    requires IsModel(i, o.program, axis, top, bottom, laws) && Instance(i, axis, child, d, e) &&
      !Instance(i, axis, parent, d, e)
    ensures HasModel(Combined(o, Some(FreedQuery(q, numbers.negated))).program, axis, top, bottom, laws)
  {
    hide Satisfies, Combined, Combinable, Count, ProgramWithin, Outside, Fixed;
    var n, own := Count(o.program.domains, IndividualSymbol), o.program.predicates;
    var freed := Freed(q.predicates[numbers.negated]);
    assert freed !in own;
    var placed := WitnessPlaced(i, n, d, e);
    var j := ReadAsComplement(placed, axis, parent, freed, own);
    assert AgreeFor(i, j, n, own);
    FixedKept(i, j, axis, top, bottom);
    ProgramAgrees(i, j, n, own, own, o.program);
    FreedMeans(j, o.program, axis, child, parent, top, bottom, hash, swap, numbers, q);
    CombinedModelsOwnTables(o, Some(FreedQuery(q, numbers.negated)), n, j);
    CombinedTable(o, FreedQuery(q, numbers.negated));
    assert IsModel(j, Combined(o, Some(FreedQuery(q, numbers.negated))).program, axis, top, bottom, laws);
  }

  lemma FreedRefutes<D(!new), V(!new)>(
    o: Ontology, q: Program, axis: Axis, child: nat, parent: nat, top: nat, bottom: nat, hash: seq<byte>, swap: bool,
    numbers: Numbers, laws: Interp<D, V> -> bool, i: Interp<D, V>)
    requires IsQuery(o.program, axis, child, parent, top, bottom, hash, swap, numbers, q) && parent != bottom
    requires numbers.negated >= |o.program.predicates|
    requires Combinable(o, Some(FreedQuery(q, numbers.negated)))
    requires ProgramWithin(o.program, |o.program.predicates|, Count(o.program.domains, IndividualSymbol))
    requires IsModel(i, Combined(o, Some(FreedQuery(q, numbers.negated))).program, axis, top, bottom, laws)
    ensures HasCounterexample(o.program, axis, child, parent, top, bottom, laws)
  {
    hide Satisfies, Combined, Combinable, Count, ProgramWithin, Outside, Fixed;
    var n := Count(o.program.domains, IndividualSymbol);
    CombinedModelsOwnTables(o, Some(FreedQuery(q, numbers.negated)), n, i);
    CombinedTable(o, FreedQuery(q, numbers.negated));
    FreedMeans(i, o.program, axis, child, parent, top, bottom, hash, swap, numbers, q);
    assert IsModel(i, o.program, axis, top, bottom, laws);
  }

  /**
   The reduction holds with the negated parent free: the merged program has a model exactly when the
   subsumption fails in some model of the ontology. The clash clause carries the one direction, and
   that the negated parent is new to the ontology the other.
   */
  lemma FreeReduction<D(!new), V(!new)>(
    o: Ontology, q: Program, axis: Axis, child: nat, parent: nat, top: nat, bottom: nat, hash: seq<byte>, swap: bool,
    numbers: Numbers, laws: Interp<D, V> -> bool)
    requires IsQuery(o.program, axis, child, parent, top, bottom, hash, swap, numbers, q) && parent != bottom
    requires numbers.negated >= |o.program.predicates| && Numbered(o.program.predicates)
    requires Combinable(o, Some(q))
    requires ProgramWithin(o.program, |o.program.predicates|, Count(o.program.domains, IndividualSymbol))
    requires Blind(laws, Count(o.program.domains, IndividualSymbol), o.program.predicates)
    ensures Combinable(o, Some(FreedQuery(q, numbers.negated)))
    ensures HasModel(Combined(o, Some(FreedQuery(q, numbers.negated))).program, axis, top, bottom, laws)
      <==> HasCounterexample(o.program, axis, child, parent, top, bottom, laws)
  {
    hide Satisfies, Count, ProgramWithin, Instance;
    var freed := FreedQuery(q, numbers.negated);
    if HasModel(Combined(o, Some(freed)).program, axis, top, bottom, laws) {
      var i: Interp<D, V> :| IsModel(i, Combined(o, Some(freed)).program, axis, top, bottom, laws);
      FreedRefutes(o, q, axis, child, parent, top, bottom, hash, swap, numbers, laws, i);
    }
    if HasCounterexample(o.program, axis, child, parent, top, bottom, laws) {
      var i: Interp<D, V>, d: D, e: D :|
        IsModel(i, o.program, axis, top, bottom, laws) && Instance(i, axis, child, d, e) &&
          !Instance(i, axis, parent, d, e);
      FreedModelled(o, q, axis, child, parent, top, bottom, hash, swap, numbers, laws, i, d, e);
    }
  }
}
