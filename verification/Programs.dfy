/** Decoded clause programs, and what it means for an interpretation to satisfy one. */
module Programs {
  import opened Bytes

  datatype Option<+T> = None | Some(value: T)

  /** The wire refusals of merging and classification; their messages are not modelled. */
  datatype Wire<+T> = Ok(value: T) | WireError {
    predicate IsFailure() { WireError? }

    function PropagateFailure<U>(): Wire<U>
      requires WireError?
    {
      WireError
    }

    function Extract(): T
      requires Ok?
    {
      value
    }
  }

  // ---------- Programs ----------

  datatype Sort = Object | Data

  datatype Kind =
    | Concept | NegatedConcept | Nominal | NegatedNominal | ObjectRole | NegatedObjectRole | DataRole | NegatedDataRole
    | DataRange | NegatedDataRange | Equality | Inequality | AtLeastObject | AtLeastData | AnnotatedEquality
    | AutomatonState | DisjointGuard | OrderingGuard | NamedIndividual

  datatype Predicate = Predicate(
    id: nat, kind: Kind, sorts: seq<Sort>, symbol: Option<nat>, role: Option<nat>, cardinality: Option<nat>,
    filler: Option<nat>, annotation: seq<nat>, internalKey: Option<string>)

  datatype Term = Variable(index: nat, sort: Sort) | Individual(individual: nat) | Literal(source: nat, identity: nat)

  datatype Atom = Atom(relation: nat, arguments: seq<Term>)

  /** A ground atom with its provenance. */
  datatype Fact = Fact(atom: Atom, provenance: seq<nat>)

  datatype Clause = Clause(id: nat, body: seq<Atom>, head: seq<Atom>, provenance: seq<nat>, joinOrder: seq<nat>)

  datatype Disjunction = Disjunction(id: nat, disjuncts: seq<Fact>, provenance: seq<nat>)

  datatype Provenance = Provenance(id: nat, sources: seq<seq<byte>>, generated: bool)

  datatype SymbolKind =
    Entity | ClassExpression | DataRangeSymbol | ObjectRoleSymbol | DataProperty | IndividualSymbol | SourceLiteral |
      DataValue

  datatype Symbol = Symbol(id: nat, key: seq<byte>, display: string, generated: bool, queryLocal: bool)

  datatype Domain = Domain(kind: SymbolKind, values: seq<Symbol>)

  datatype RoleModel = RoleModel(
    inverses: seq<nat>, simpleInclusions: seq<(nat, nat)>, dataInclusions: seq<(nat, nat)>,
    topObject: nat, bottomObject: nat, topData: nat, bottomData: nat)

  datatype Program = Program(
    domains: seq<Domain>, predicates: seq<Predicate>, clauses: seq<Clause>, positive: seq<Fact>, negative: seq<Fact>,
    disjunctions: seq<Disjunction>, roles: RoleModel, provenance: seq<Provenance>)

  datatype Ontology = Ontology(program: Program, named: seq<nat>)

  /** Predicates are numbered by their place in the table. */
  ghost predicate Numbered(predicates: seq<Predicate>) {
    forall k :: 0 <= k < |predicates| ==> predicates[k].id == k
  }

  // ---------- Interpretations ----------

  datatype Value<D, V> = Element(element: D) | Datum(datum: V)

  /**
   Objects are drawn from `D` and data values from `V`. Concepts and object roles have extensions
   by symbol; every other kind of predicate has an extension of its own, which the laws of the
   setting may tie to the rest.
   */
  datatype Interp<!D, !V> = Interp(
    individual: nat -> D, literal: (nat, nat) -> V, concept: (nat, D) -> bool, role: (nat, D, D) -> bool,
    other: (Predicate, seq<Value<D, V>>) -> bool)

  datatype Assignment<!D, !V> = Assignment(objects: nat -> D, data: nat -> V)

  ghost function Denoted<D, V>(i: Interp<D, V>, env: Assignment<D, V>, t: Term): Value<D, V> {
    match t
    case Variable(x, Object) => Element(env.objects(x))
    case Variable(x, Data) => Datum(env.data(x))
    case Individual(n) => Element(i.individual(n))
    case Literal(source, identity) => Datum(i.literal(source, identity))
  }

  ghost function DenotedAll<D, V>(i: Interp<D, V>, env: Assignment<D, V>, ts: seq<Term>): (values: seq<Value<D, V>>)
    ensures |values| == |ts|
  {
    seq(|ts|, k requires 0 <= k < |ts| => Denoted(i, env, ts[k]))
  }

  /** The extension of a predicate; negated concepts and roles are complements. */
  ghost predicate Extension<D, V>(i: Interp<D, V>, p: Predicate, values: seq<Value<D, V>>) {
    match p.kind
    case Concept => |values| == 1 && values[0].Element? && p.symbol.Some? &&
      i.concept(p.symbol.value, values[0].element)
    case NegatedConcept =>
      |values| == 1 && values[0].Element? && p.symbol.Some? && !i.concept(p.symbol.value, values[0].element)
    case ObjectRole =>
      && |values| == 2 && values[0].Element? && values[1].Element? && p.role.Some?
      && i.role(p.role.value, values[0].element, values[1].element)
    case NegatedObjectRole =>
      && |values| == 2 && values[0].Element? && values[1].Element? && p.role.Some?
      && !i.role(p.role.value, values[0].element, values[1].element)
    case _ => i.other(p, values)
  }

  ghost predicate Holds<D, V>(i: Interp<D, V>, predicates: seq<Predicate>, env: Assignment<D, V>, a: Atom) {
    a.relation < |predicates| && Extension(i, predicates[a.relation], DenotedAll(i, env, a.arguments))
  }

  ghost predicate AllHold<D, V>(i: Interp<D, V>, predicates: seq<Predicate>, env: Assignment<D, V>, atoms: seq<Atom>) {
    forall k :: 0 <= k < |atoms| ==> Holds(i, predicates, env, atoms[k])
  }

  ghost predicate SomeHolds<D, V>(
    i: Interp<D, V>, predicates: seq<Predicate>, env: Assignment<D, V>, atoms: seq<Atom>)
  {
    exists k :: 0 <= k < |atoms| && Holds(i, predicates, env, atoms[k])
  }

  /** Under every assignment, if the whole body holds, some head atom does. */
  ghost predicate ClauseTrue<D(!new), V(!new)>(
    i: Interp<D, V>, predicates: seq<Predicate>, body: seq<Atom>, head: seq<Atom>)
  {
    forall env: Assignment<D, V> :: AllHold(i, predicates, env, body) ==> SomeHolds(i, predicates, env, head)
  }

  ghost predicate FactTrue<D(!new), V(!new)>(i: Interp<D, V>, predicates: seq<Predicate>, a: Atom) {
    forall env: Assignment<D, V> :: Holds(i, predicates, env, a)
  }

  ghost predicate DisjunctionTrue<D(!new), V(!new)>(i: Interp<D, V>, predicates: seq<Predicate>, atoms: seq<Atom>) {
    forall env: Assignment<D, V> :: SomeHolds(i, predicates, env, atoms)
  }

  function Atoms(facts: seq<Fact>): (atoms: seq<Atom>)
    ensures |atoms| == |facts|
    ensures forall k :: 0 <= k < |facts| ==> atoms[k] == facts[k].atom
  {
    seq(|facts|, k requires 0 <= k < |facts| => facts[k].atom)
  }

  ghost predicate ClausesTrue<D(!new), V(!new)>(i: Interp<D, V>, predicates: seq<Predicate>, clauses: seq<Clause>) {
    forall k :: 0 <= k < |clauses| ==> ClauseTrue(i, predicates, clauses[k].body, clauses[k].head)
  }

  ghost predicate FactsTrue<D(!new), V(!new)>(i: Interp<D, V>, predicates: seq<Predicate>, facts: seq<Fact>) {
    forall k :: 0 <= k < |facts| ==> FactTrue(i, predicates, facts[k].atom)
  }

  ghost predicate DisjunctionsTrue<D(!new), V(!new)>(
    i: Interp<D, V>, predicates: seq<Predicate>, ds: seq<Disjunction>)
  {
    forall k :: 0 <= k < |ds| ==> DisjunctionTrue(i, predicates, Atoms(ds[k].disjuncts))
  }

  /** Facts of either polarity are asserted atoms: a negative one names a negated predicate. */
  ghost predicate Satisfies<D(!new), V(!new)>(i: Interp<D, V>, predicates: seq<Predicate>, p: Program) {
    && ClausesTrue(i, predicates, p.clauses) && FactsTrue(i, predicates, p.positive)
    && FactsTrue(i, predicates, p.negative) && DisjunctionsTrue(i, predicates, p.disjunctions)
  }

  // ---------- References ----------

  /** Every atom names a predicate of the table and an individual of the domain. */
  predicate TermWithin(t: Term, individuals: nat) {
    t.Individual? ==> t.individual < individuals
  }

  predicate AtomWithin(a: Atom, predicates: nat, individuals: nat) {
    a.relation < predicates && forall k :: 0 <= k < |a.arguments| ==> TermWithin(a.arguments[k], individuals)
  }

  predicate AtomsWithin(atoms: seq<Atom>, predicates: nat, individuals: nat) {
    forall k :: 0 <= k < |atoms| ==> AtomWithin(atoms[k], predicates, individuals)
  }

  predicate ClauseWithin(c: Clause, predicates: nat, individuals: nat) {
    AtomsWithin(c.body, predicates, individuals) && AtomsWithin(c.head, predicates, individuals)
  }

  predicate ProgramWithin(p: Program, predicates: nat, individuals: nat) {
    && (forall k :: 0 <= k < |p.clauses| ==> ClauseWithin(p.clauses[k], predicates, individuals))
    && AtomsWithin(Atoms(p.positive), predicates, individuals) &&
       AtomsWithin(Atoms(p.negative), predicates, individuals)
    && (forall k :: 0 <= k < |p.disjunctions| ==>
       AtomsWithin(Atoms(p.disjunctions[k].disjuncts), predicates, individuals))
  }

  // ---------- What truth depends on ----------

  /** Two interpretations that differ only in the individuals numbered `n` and up. */
  ghost predicate Agree<D(!new), V(!new)>(i: Interp<D, V>, j: Interp<D, V>, n: nat) {
    && i.literal == j.literal && i.concept == j.concept && i.role == j.role && i.other == j.other
    && forall k: nat :: k < n ==> i.individual(k) == j.individual(k)
  }

  /** Two interpretations that differ only in the individuals numbered `n` and up and in predicates outside a table. */
  ghost predicate AgreeFor<D(!new), V(!new)>(i: Interp<D, V>, j: Interp<D, V>, n: nat, table: seq<Predicate>) {
    && i.literal == j.literal && i.concept == j.concept && i.role == j.role
    && (forall k, values :: 0 <= k < |table| ==> (i.other(table[k], values) <==> j.other(table[k], values)))
    && forall k: nat :: k < n ==> i.individual(k) == j.individual(k)
  }

  lemma AtomAgrees<D(!new), V(!new)>(
    i: Interp<D, V>, j: Interp<D, V>, n: nat, short: seq<Predicate>, long: seq<Predicate>, env: Assignment<D, V>,
      a: Atom)
    requires AgreeFor(i, j, n, short) && short <= long && AtomWithin(a, |short|, n)
    ensures Holds(i, short, env, a) <==> Holds(j, long, env, a)
  {
    assert DenotedAll(i, env, a.arguments) == DenotedAll(j, env, a.arguments) by {
      forall k | 0 <= k < |a.arguments| ensures Denoted(i, env, a.arguments[k]) == Denoted(j, env, a.arguments[k]) {
        assert TermWithin(a.arguments[k], n);
      }
    }
  }

  lemma AtomsAgree<D(!new), V(!new)>(
    i: Interp<D, V>, j: Interp<D, V>, n: nat, short: seq<Predicate>, long: seq<Predicate>, env: Assignment<D, V>,
      atoms: seq<Atom>)
    requires AgreeFor(i, j, n, short) && short <= long && AtomsWithin(atoms, |short|, n)
    ensures AllHold(i, short, env, atoms) <==> AllHold(j, long, env, atoms)
    ensures SomeHolds(i, short, env, atoms) <==> SomeHolds(j, long, env, atoms)
  {
    forall k | 0 <= k < |atoms| ensures Holds(i, short, env, atoms[k]) <==> Holds(j, long, env, atoms[k]) {
      AtomAgrees(i, j, n, short, long, env, atoms[k]);
    }
  }

  lemma ClauseAgrees<D(!new), V(!new)>(
    i: Interp<D, V>, j: Interp<D, V>, n: nat, short: seq<Predicate>, long: seq<Predicate>, c: Clause)
    requires AgreeFor(i, j, n, short) && short <= long && ClauseWithin(c, |short|, n)
    ensures ClauseTrue(i, short, c.body, c.head) <==> ClauseTrue(j, long, c.body, c.head)
  {
    forall env: Assignment<D, V>
      ensures AllHold(i, short, env, c.body) <==> AllHold(j, long, env, c.body)
      ensures SomeHolds(i, short, env, c.head) <==> SomeHolds(j, long, env, c.head)
    {
      AtomsAgree(i, j, n, short, long, env, c.body);
      AtomsAgree(i, j, n, short, long, env, c.head);
    }
  }

  lemma FactsAgree<D(!new), V(!new)>(
    i: Interp<D, V>, j: Interp<D, V>, n: nat, short: seq<Predicate>, long: seq<Predicate>, facts: seq<Fact>)
    requires AgreeFor(i, j, n, short) && short <= long && AtomsWithin(Atoms(facts), |short|, n)
    ensures FactsTrue(i, short, facts) <==> FactsTrue(j, long, facts)
  {
    forall k | 0 <= k < |facts| ensures FactTrue(i, short, facts[k].atom) <==> FactTrue(j, long, facts[k].atom) {
      assert AtomWithin(Atoms(facts)[k], |short|, n);
      forall env: Assignment<D, V> ensures Holds(i, short, env, facts[k].atom) <==> Holds(j, long, env, facts[k].atom) {
        AtomAgrees(i, j, n, short, long, env, facts[k].atom);
      }
    }
  }

  lemma DisjunctionAgrees<D(!new), V(!new)>(
    i: Interp<D, V>, j: Interp<D, V>, n: nat, short: seq<Predicate>, long: seq<Predicate>, atoms: seq<Atom>)
    requires AgreeFor(i, j, n, short) && short <= long && AtomsWithin(atoms, |short|, n)
    ensures DisjunctionTrue(i, short, atoms) <==> DisjunctionTrue(j, long, atoms)
  {
    forall env: Assignment<D, V> ensures SomeHolds(i, short, env, atoms) <==> SomeHolds(j, long, env, atoms) {
      AtomsAgree(i, j, n, short, long, env, atoms);
    }
  }

  /** A program means the same under a longer predicate table and after naming further individuals. */
  lemma ProgramAgrees<D(!new), V(!new)>(
    i: Interp<D, V>, j: Interp<D, V>, n: nat, short: seq<Predicate>, long: seq<Predicate>, p: Program)
    requires AgreeFor(i, j, n, short) && short <= long && ProgramWithin(p, |short|, n)
    ensures Satisfies(i, short, p) <==> Satisfies(j, long, p)
  {
    forall k | 0 <= k < |p.clauses|
      ensures ClauseTrue(i, short, p.clauses[k].body, p.clauses[k].head) <==>
        ClauseTrue(j, long, p.clauses[k].body, p.clauses[k].head)
    {
      ClauseAgrees(i, j, n, short, long, p.clauses[k]);
    }
    FactsAgree(i, j, n, short, long, p.positive);
    FactsAgree(i, j, n, short, long, p.negative);
    forall k | 0 <= k < |p.disjunctions|
      ensures DisjunctionTrue(i, short, Atoms(p.disjunctions[k].disjuncts)) <==>
        DisjunctionTrue(j, long, Atoms(p.disjunctions[k].disjuncts))
    {
      DisjunctionAgrees(i, j, n, short, long, Atoms(p.disjunctions[k].disjuncts));
    }
  }
}
