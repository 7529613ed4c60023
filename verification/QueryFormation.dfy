/** The counterexample query is well formed, and so is the ontology it is merged into. */
module QueryFormation {
  import opened Bytes
  import opened Programs
  import opened Merge
  import opened Combination
  import opened Counterexample
  import opened Formation

  // ---------- Its symbols ----------

  lemma AppendedValues(
    domains: seq<Domain>, extended: seq<Domain>, kind: SymbolKind, added: seq<Symbol>, other: SymbolKind)
    requires Appended(domains, extended, kind, added)
    ensures ValuesOf(extended, other) == ValuesOf(domains, other) + (if other == kind then added else [])
  {
    DomainKept(domains, extended, other);
  }

  /** No permanent symbol is marked as a query's own. */
  ghost predicate NoneLocal(p: Program) {
    forall kind, k :: 0 <= k < |ValuesOf(p.domains, kind)| ==> !ValuesOf(p.domains, kind)[k].queryLocal
  }

  /**
   The permanent symbols of every kind are a prefix; the symbols after them are the query's own and were not
   generated.
   */
  lemma QuerySymbols(
    p: Program, axis: Axis, child: nat, parent: nat, top: nat, bottom: nat, hash: seq<byte>, swap: bool,
    numbers: Numbers, q: Program)
    requires IsQuery(p, axis, child, parent, top, bottom, hash, swap, numbers, q)
    ensures Extends(p, q)
    ensures forall kind, k :: |ValuesOf(p.domains, kind)| <= k < |ValuesOf(q.domains, kind)| ==>
      ValuesOf(q.domains, kind)[k].queryLocal && !ValuesOf(q.domains, kind)[k].generated
    ensures LocalMarked(p, q) <==> NoneLocal(p)
  {
    hide ValuesOf, Count, Gained, NamesAll, Appended;
    var added := WitnessSymbols(axis, Count(p.domains, IndividualSymbol), hash);
    forall kind
      ensures ValuesOf(q.domains, kind) ==
        ValuesOf(p.domains, kind) + (if kind == IndividualSymbol then added else [])
    {
      AppendedValues(p.domains, q.domains, IndividualSymbol, added, kind);
    }
    assert p.predicates <= q.predicates by { GainedPrefix(p, axis, child, parent, top, bottom, q); }
    if LocalMarked(p, q) {
      forall kind, k | 0 <= k < |ValuesOf(p.domains, kind)| ensures !ValuesOf(p.domains, kind)[k].queryLocal {
        assert ValuesOf(q.domains, kind)[k] == ValuesOf(p.domains, kind)[k];
      }
    }
    if NoneLocal(p) {
      forall kind, k | 0 <= k < |ValuesOf(q.domains, kind)|
        ensures ValuesOf(q.domains, kind)[k].queryLocal <==> k >= |ValuesOf(p.domains, kind)|
      {
        assert k < |ValuesOf(p.domains, kind)| ==> !ValuesOf(p.domains, kind)[k].queryLocal;
      }
    }
  }

  lemma GainedPrefix(p: Program, axis: Axis, child: nat, parent: nat, top: nat, bottom: nat, q: Program)
    requires Gained(p.predicates, q.predicates, axis, child, parent, top, bottom)
    ensures p.predicates <= q.predicates
  {
  }

  lemma QueryDomainsFit(
    p: Program, axis: Axis, child: nat, parent: nat, top: nat, bottom: nat, hash: seq<byte>, swap: bool,
    numbers: Numbers, q: Program)
    requires IsQuery(p, axis, child, parent, top, bottom, hash, swap, numbers, q) && DomainsFit(p.domains)
    ensures DomainsFit(q.domains)
  {
    hide Gained, NamesAll;
    var i := DomainAt(p.domains, IndividualSymbol);
    var added := WitnessSymbols(axis, |p.domains[i].values|, hash);
    assert q.domains[i] == Domain(IndividualSymbol, p.domains[i].values + added);
    forall k | 0 <= k < |added| ensures SymbolFits(added[k], |p.domains[i].values| + k) {
    }
  }

  // ---------- Its predicates ----------

  /** The number of a class, or of an object property, that there is. */
  predicate Listed(p: Program, axis: Axis, symbol: nat) {
    symbol < if axis.Classes? then Count(p.domains, ClassExpression) else |p.roles.inverses|
  }

  /** What the query names is there. */
  predicate NamesListed(p: Program, axis: Axis, child: nat, parent: nat, top: nat, bottom: nat) {
    (AssertsChild(axis, child, top) ==> Listed(p, axis, child)) && (parent != bottom ==> Listed(p, axis, parent))
  }

  lemma PredicateFitsLonger(
    x: Predicate, table: seq<Predicate>, longer: seq<Predicate>, p: Program, q: Program, roles: nat)
    requires PredicateFits(x, table, p.domains, roles) && table <= longer && Extends(p, q)
    ensures PredicateFits(x, longer, q.domains, roles)
  {
    hide SortsFit, FieldsFit, Count, ValuesOf, Extends;
    CountLonger(p, q, ClassExpression);
    CountLonger(p, q, DataRangeSymbol);
    CountLonger(p, q, IndividualSymbol);
    assert x.filler.Some? ==> longer[x.filler.value] == table[x.filler.value];
  }

  /** An added predicate is as the decoder wants it exactly when what it names is there. */
  lemma AddedFits(kind: Kind, axis: Axis, symbol: nat, table: seq<Predicate>, k: nat, q: Program)
    requires kind in {Positive(axis), Negative(axis)}
    ensures PredicateFits(NewPredicate(k, kind, axis, symbol, Sorts(axis)), table, q.domains, |q.roles.inverses|) <==>
      Listed(q, axis, symbol)
  {
    hide Count;
  }

  lemma NamedListed(table: seq<Predicate>, number: nat, kind: Kind, axis: Axis, symbol: nat, q: Program)
    requires Counterexample.Names(table, number, kind, axis, symbol) && kind in {Positive(axis), Negative(axis)}
    requires TableFits(table, q.domains, |q.roles.inverses|)
    ensures Listed(q, axis, symbol)
  {
    hide Count;
    assert PredicateFits(table[number], table, q.domains, |q.roles.inverses|);
  }

  lemma ListedStays(
    p: Program, axis: Axis, child: nat, parent: nat, top: nat, bottom: nat, hash: seq<byte>, swap: bool,
    numbers: Numbers, q: Program, symbol: nat)
    requires IsQuery(p, axis, child, parent, top, bottom, hash, swap, numbers, q)
    ensures Listed(p, axis, symbol) <==> Listed(q, axis, symbol)
  {
    hide Gained, NamesAll, Appended, WitnessSymbols;
    AppendedValues(p.domains, q.domains, IndividualSymbol,
      WitnessSymbols(axis, Count(p.domains, IndividualSymbol), hash), ClassExpression);
    assert |ValuesOf(p.domains, ClassExpression)| == |ValuesOf(q.domains, ClassExpression)|;
  }

  lemma QueryPredicateFits(
    p: Program, axis: Axis, child: nat, parent: nat, top: nat, bottom: nat, q: Program, k: nat)
    requires Gained(p.predicates, q.predicates, axis, child, parent, top, bottom) && Extends(p, q)
    requires TableFits(p.predicates, p.domains, |q.roles.inverses|) && k < |q.predicates|
    requires AssertsChild(axis, child, top) ==> Listed(q, axis, child)
    requires parent != bottom ==> Listed(q, axis, parent)
    ensures PredicateFits(q.predicates[k], q.predicates, q.domains, |q.roles.inverses|)
  {
    hide PredicateFits, Listed, AssertsChild;
    if k < |p.predicates| {
      assert q.predicates[k] == p.predicates[k];
      PredicateFitsLonger(q.predicates[k], p.predicates, q.predicates, p, q, |q.roles.inverses|);
    } else {
      assert IsAdded(q.predicates[k], k, axis, child, parent, top, bottom);
      var kind, symbol :| Needed(kind, symbol, axis, child, parent, top, bottom) &&
        q.predicates[k] == NewPredicate(k, kind, axis, symbol, Sorts(axis));
      AddedFits(kind, axis, symbol, q.predicates, k, q);
    }
  }

  lemma QueryTableFits(
    p: Program, axis: Axis, child: nat, parent: nat, top: nat, bottom: nat, hash: seq<byte>, swap: bool,
    numbers: Numbers, q: Program)
    requires IsQuery(p, axis, child, parent, top, bottom, hash, swap, numbers, q)
    requires TableFits(p.predicates, p.domains, |p.roles.inverses|)
    ensures TableFits(q.predicates, q.domains, |q.roles.inverses|) <==>
      NamesListed(p, axis, child, parent, top, bottom)
  {
    hide PredicateFits, Listed, Counterexample.Names, NewPredicate, Appended, Clash, WitnessSymbols, Witness, Positive,
      Negative, AssertsChild, Count, Gained, Extends;
    var table, roles := q.predicates, |q.roles.inverses|;
    ListedStays(p, axis, child, parent, top, bottom, hash, swap, numbers, q, child);
    ListedStays(p, axis, child, parent, top, bottom, hash, swap, numbers, q, parent);
    if TableFits(table, q.domains, roles) {
      if AssertsChild(axis, child, top) { NamedListed(table, numbers.child, Positive(axis), axis, child, q); }
      if parent != bottom { NamedListed(table, numbers.parent, Positive(axis), axis, parent, q); }
    }
    if NamesListed(p, axis, child, parent, top, bottom) {
      assert Extends(p, q) by { QuerySymbols(p, axis, child, parent, top, bottom, hash, swap, numbers, q); }
      forall k | 0 <= k < |table| ensures PredicateFits(table[k], table, q.domains, roles) {
        QueryPredicateFits(p, axis, child, parent, top, bottom, q, k);
      }
    }
  }

  // ---------- Its rules ----------

  /** Every predicate has the sorts of its kind. */
  ghost predicate WellSorted(table: seq<Predicate>) {
    forall k :: 0 <= k < |table| ==> SortsFit(table[k].kind, table[k].sorts)
  }

  lemma QueryTableSorted(
    p: Program, axis: Axis, child: nat, parent: nat, top: nat, bottom: nat, q: Program)
    requires Gained(p.predicates, q.predicates, axis, child, parent, top, bottom) && WellSorted(p.predicates)
    ensures WellSorted(q.predicates)
  {
    forall k | 0 <= k < |q.predicates| ensures SortsFit(q.predicates[k].kind, q.predicates[k].sorts) {
      if k < |p.predicates| { assert q.predicates[k] == p.predicates[k]; }
    }
  }

  lemma NamedSorts(table: seq<Predicate>, number: nat, kind: Kind, axis: Axis, symbol: nat)
    requires WellSorted(table) && Counterexample.Names(table, number, kind, axis, symbol)
    requires kind in {Positive(axis), Negative(axis)}
    ensures |table[number].sorts| == |Variables(axis)| == |Witness(axis, 0)|
    ensures forall k :: 0 <= k < |table[number].sorts| ==> table[number].sorts[k] == Object
  {
  }

  lemma WitnessFits(table: seq<Predicate>, number: nat, kind: Kind, axis: Axis, symbol: nat, n: nat, sizes: Sizes)
    requires WellSorted(table) && Counterexample.Names(table, number, kind, axis, symbol)
    requires kind in {Positive(axis), Negative(axis)}
    requires n + |Witness(axis, 0)| <= sizes.individuals
    ensures FactFits(Atom(number, Witness(axis, n)), table, sizes)
    ensures AtomFits(Atom(number, Variables(axis)), table, sizes, false)
  {
    NamedSorts(table, number, kind, axis, symbol);
  }

  lemma ClashFits(table: seq<Predicate>, numbers: Numbers, axis: Axis, swap: bool, sizes: Sizes)
    requires AtomFits(Atom(numbers.parent, Variables(axis)), table, sizes, false)
    requires AtomFits(Atom(numbers.negated, Variables(axis)), table, sizes, false)
    ensures ClauseFits(KeyOf(Clash(axis, numbers, swap)), table, sizes)
  {
    hide AtomFits;
  }

  /**
   Every atom of the query has as many arguments as its predicate has sorts, each of its sort, and refers
   only to individuals there are; it needs no more than that the permanent predicates have their kinds' sorts.
   */
  lemma QueryWellSorted(
    p: Program, axis: Axis, child: nat, parent: nat, top: nat, bottom: nat, hash: seq<byte>, swap: bool,
    numbers: Numbers, q: Program)
    requires IsQuery(p, axis, child, parent, top, bottom, hash, swap, numbers, q) && WellSorted(p.predicates)
    ensures RulesFit(q, q.predicates, SizesOf(q.domains))
  {
    hide Gained, Appended, WitnessSymbols, Witness, WellSorted, FactFits, ClauseFits, Counterexample.Names, Clash,
      AtomFits, Count, AssertsChild, Positive, Negative, Variables;
    var n, table, sizes := Count(p.domains, IndividualSymbol), q.predicates, SizesOf(q.domains);
    QueryTableSorted(p, axis, child, parent, top, bottom, q);
    AppendedCount(p.domains, q.domains, IndividualSymbol, WitnessSymbols(axis, n, hash));
    WitnessSizes(axis, n, hash);
    if AssertsChild(axis, child, top) {
      WitnessFits(table, numbers.child, Positive(axis), axis, child, n, sizes);
    }
    if parent != bottom {
      WitnessFits(table, numbers.parent, Positive(axis), axis, parent, n, sizes);
      WitnessFits(table, numbers.negated, Negative(axis), axis, parent, n, sizes);
      ClashFits(table, numbers, axis, swap, sizes);
    }
  }

  lemma QueryRulesCited(
    p: Program, axis: Axis, child: nat, parent: nat, top: nat, bottom: nat, hash: seq<byte>, swap: bool,
    numbers: Numbers, q: Program)
    requires IsQuery(p, axis, child, parent, top, bottom, hash, swap, numbers, q)
    ensures RulesCited(q, |q.provenance|) && ProvenanceFits(q.provenance)
  {
    hide Gained, Appended, WitnessSymbols, Witness, NamesAll;
  }

  lemma TableSorted(table: seq<Predicate>, domains: seq<Domain>, roles: nat)
    requires TableFits(table, domains, roles)
    ensures WellSorted(table)
  {
    forall k | 0 <= k < |table| ensures SortsFit(table[k].kind, table[k].sorts) {
      assert PredicateFits(table[k], table, domains, roles);
    }
  }

  /** The query built for a well-formed program is well formed exactly when what it names is there. */
  lemma QueryFormed(
    p: Program, axis: Axis, child: nat, parent: nat, top: nat, bottom: nat, hash: seq<byte>, swap: bool,
    numbers: Numbers, q: Program)
    requires IsQuery(p, axis, child, parent, top, bottom, hash, swap, numbers, q) && Formed(p)
    ensures Formed(q) <==> NamesListed(p, axis, child, parent, top, bottom)
  {
    hide IsQuery, DomainsFit, TableFits, ProvenanceFits, RulesFit, RulesCited, NamesListed;
    QueryDomainsFit(p, axis, child, parent, top, bottom, hash, swap, numbers, q);
    QueryTableFits(p, axis, child, parent, top, bottom, hash, swap, numbers, q);
    TableSorted(p.predicates, p.domains, |p.roles.inverses|);
    QueryWellSorted(p, axis, child, parent, top, bottom, hash, swap, numbers, q);
    QueryRulesCited(p, axis, child, parent, top, bottom, hash, swap, numbers, q);
  }

  /** The query refers only to its own table and individuals, whatever the permanent program is. */
  lemma QueryWithin(
    p: Program, axis: Axis, child: nat, parent: nat, top: nat, bottom: nat, hash: seq<byte>, swap: bool,
    numbers: Numbers, q: Program)
    requires IsQuery(p, axis, child, parent, top, bottom, hash, swap, numbers, q)
    ensures ProgramWithin(q, |q.predicates|, Count(q.domains, IndividualSymbol))
  {
    hide Gained, Appended, WitnessSymbols, Count;
    var n := Count(p.domains, IndividualSymbol);
    AppendedCount(p.domains, q.domains, IndividualSymbol, WitnessSymbols(axis, n, hash));
    WitnessSizes(axis, n, hash);
  }

  /** Merging the query leaves no reference dangling: the witness has its symbol, and every atom its predicate. */
  lemma QueryMergedWithin(
    o: Ontology, axis: Axis, child: nat, parent: nat, top: nat, bottom: nat, hash: seq<byte>, swap: bool,
    numbers: Numbers, q: Program)
    requires IsQuery(o.program, axis, child, parent, top, bottom, hash, swap, numbers, q) && Combinable(o, Some(q))
    requires ProgramWithin(o.program, |o.program.predicates|, Count(o.program.domains, IndividualSymbol))
    ensures
      var c := Combined(o, Some(q)).program;
      && ProgramWithin(c, |c.predicates|, Count(c.domains, IndividualSymbol)) && Extends(o.program, c)
      && Count(c.domains, IndividualSymbol) == Count(o.program.domains, IndividualSymbol) + |Witness(axis, 0)|
      && (LocalMarked(o.program, c) <==> NoneLocal(o.program))
  {
    hide IsQuery, ProgramWithin, Together, MappingFor, Extended, Count, ValuesOf, Mergeable, Appended, Gained,
      WitnessSymbols, Witness;
    QuerySymbols(o.program, axis, child, parent, top, bottom, hash, swap, numbers, q);
    QueryWithin(o.program, axis, child, parent, top, bottom, hash, swap, numbers, q);
    CombinedWithin(o, Some(q));
    QueryCount(o.program, axis, child, parent, top, bottom, hash, swap, numbers, q);
  }

  lemma QueryCount(
    p: Program, axis: Axis, child: nat, parent: nat, top: nat, bottom: nat, hash: seq<byte>, swap: bool,
    numbers: Numbers, q: Program)
    requires IsQuery(p, axis, child, parent, top, bottom, hash, swap, numbers, q)
    ensures Count(q.domains, IndividualSymbol) == Count(p.domains, IndividualSymbol) + |Witness(axis, 0)|
  {
    hide Gained, NamesAll, Appended, WitnessSymbols, Count, Witness;
    var n := Count(p.domains, IndividualSymbol);
    AppendedCount(p.domains, q.domains, IndividualSymbol, WitnessSymbols(axis, n, hash));
    WitnessSizes(axis, n, hash);
  }

  /** The ontology a well-formed query is answered against is well formed. */
  lemma QueryMergedFormed(
    o: Ontology, axis: Axis, child: nat, parent: nat, top: nat, bottom: nat, hash: seq<byte>, swap: bool,
    numbers: Numbers, q: Program)
    requires IsQuery(o.program, axis, child, parent, top, bottom, hash, swap, numbers, q) && Combinable(o, Some(q))
    requires Formed(o.program) && NamesListed(o.program, axis, child, parent, top, bottom)
    ensures Formed(Combined(o, Some(q)).program)
  {
    hide IsQuery, Formed, NamesListed, Combined, Combinable;
    QuerySymbols(o.program, axis, child, parent, top, bottom, hash, swap, numbers, q);
    QueryFormed(o.program, axis, child, parent, top, bottom, hash, swap, numbers, q);
    CombinedFormed(o, Some(q));
  }

  // ---------- One rule the query does not keep ----------

  /**
   The query keeps its negated fact among the positive ones, so facts stay in their own lists exactly when
   there is no such fact: when the parent is bottom.
   */
  lemma QueryPartitioned(
    p: Program, axis: Axis, child: nat, parent: nat, top: nat, bottom: nat, hash: seq<byte>, swap: bool,
    numbers: Numbers, q: Program)
    requires IsQuery(p, axis, child, parent, top, bottom, hash, swap, numbers, q)
    ensures Partitioned(q) <==> parent == bottom
  {
    hide Gained, Appended, WitnessSymbols, Witness, Count, AssertsChild;
    if parent != bottom {
      var fact := q.positive[|q.positive| - 1];
      assert fact.atom.relation == numbers.negated;
      assert !Sided(fact.atom, q.predicates, false);
    }
  }

  /** The same is true of the merged ontology, which is otherwise partitioned as the permanent one was. */
  lemma QueryMergedPartitioned(
    o: Ontology, axis: Axis, child: nat, parent: nat, top: nat, bottom: nat, hash: seq<byte>, swap: bool,
    numbers: Numbers, q: Program)
    requires IsQuery(o.program, axis, child, parent, top, bottom, hash, swap, numbers, q) && Combinable(o, Some(q))
    requires ProgramWithin(o.program, |o.program.predicates|, Count(o.program.domains, IndividualSymbol))
    ensures Partitioned(Combined(o, Some(q)).program) <==> Partitioned(o.program) && parent == bottom
  {
    hide IsQuery, Together, MappingFor, Extended, Mergeable, Count, AtomWithin, ValuesOf;
    var table := q.predicates;
    QuerySymbols(o.program, axis, child, parent, top, bottom, hash, swap, numbers, q);
    QueryPartitioned(o.program, axis, child, parent, top, bottom, hash, swap, numbers, q);
    CombinedHave(o, Some(q), key => true, a => Sided(a, table, false), a => Sided(a, table, true), atoms => true);
    SidedLonger(o.program.positive, o.program.predicates, table, Count(o.program.domains, IndividualSymbol), false);
    SidedLonger(o.program.negative, o.program.predicates, table, Count(o.program.domains, IndividualSymbol), true);
  }

  lemma SidedLonger(facts: seq<Fact>, table: seq<Predicate>, longer: seq<Predicate>, individuals: nat, negative: bool)
    requires table <= longer && AtomsWithin(Atoms(facts), |table|, individuals)
    ensures FactsHave(facts, a => Sided(a, longer, negative)) <==> FactsHave(facts, a => Sided(a, table, negative))
  {
    forall k | 0 <= k < |facts|
      ensures Sided(facts[k].atom, longer, negative) <==> Sided(facts[k].atom, table, negative)
    {
      assert AtomWithin(Atoms(facts)[k], |table|, individuals);
    }
  }
}
