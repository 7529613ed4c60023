/**
 The query that decides a subsumption: the ontology together with a fresh witness that is in the
 child and outside the parent.
 */
module Counterexample {
  import opened Bytes
  import opened Programs
  import opened MergeList
  import opened Merge
  import opened Combination

  /** The two classification domains whose meaning does not involve data values. */
  datatype Axis = Classes | ObjectProperties

  const OWL_THING := "class:http://www.w3.org/2002/07/owl#Thing"
  const OWL_NOTHING := "class:http://www.w3.org/2002/07/owl#Nothing"

  // ---------- Symbol domains ----------

  /** Position of the first domain of a kind, or the number of domains. */
  function DomainAt(domains: seq<Domain>, kind: SymbolKind): (i: nat)
    ensures i <= |domains|
    ensures i < |domains| ==> domains[i].kind == kind
    ensures forall j :: 0 <= j < i ==> domains[j].kind != kind
  {
    if domains == [] then 0 else if domains[0].kind == kind then 0 else 1 + DomainAt(domains[1..], kind)
  }

  /** How many symbols of a kind there are. */
  function Count(domains: seq<Domain>, kind: SymbolKind): nat {
    var i := DomainAt(domains, kind);
    if i < |domains| then |domains[i].values| else 0
  }

  predicate Display(domains: seq<Domain>, kind: SymbolKind, display: string, k: nat) {
    var i := DomainAt(domains, kind);
    i < |domains| && k < |domains[i].values| && domains[i].values[k].display == display
  }

  /** Symbol `k`, and no other, is shown as `display`. */
  ghost predicate ShownOnce(domains: seq<Domain>, kind: SymbolKind, display: string, k: nat) {
    Display(domains, kind, display, k) && forall j: nat :: Display(domains, kind, display, j) ==> j == k
  }

  /** The one symbol shown as `display`; none or several is a refusal. */
  method SymbolByDisplay(domains: seq<Domain>, kind: SymbolKind, display: string) returns (r: Wire<nat>)
    ensures r.Ok? <==> exists k: nat :: ShownOnce(domains, kind, display, k)
    ensures r.Ok? ==>
      exists k: nat :: ShownOnce(domains, kind, display, k) && r.value == domains[DomainAt(domains, kind)].values[k].id
  {
    var i := DomainAt(domains, kind);
    if i == |domains| {
      return WireError;
    }
    var found: Option<nat> := None;
    var values := domains[i].values;
    for n := 0 to |values|
      invariant found.None? ==> forall k: nat :: k < n ==> !Display(domains, kind, display, k)
      invariant found.Some? ==> found.value < n && Display(domains, kind, display, found.value)
      invariant found.Some? ==> forall k: nat :: k < n && Display(domains, kind, display, k) ==> k == found.value
    {
      if values[n].display == display {
        assert Display(domains, kind, display, n);
        if found.Some? {
          return WireError;
        }
        found := Some(n);
      }
    }
    if found.None? {
      return WireError;
    }
    assert ShownOnce(domains, kind, display, found.value);
    return Ok(values[found.value].id);
  }

  /** Adds a fresh query-local symbol; its number is the old size of its domain. */
  method AppendQuerySymbol(domains: seq<Domain>, kind: SymbolKind, key: seq<byte>, display: string)
    returns (r: Wire<(seq<Domain>, nat)>)
    ensures r.Ok? <==> DomainAt(domains, kind) < |domains| && Count(domains, kind) < U32_LIMIT
    ensures r.Ok? ==> r.value.1 == Count(domains, kind)
    ensures r.Ok? ==> Appended(domains, r.value.0, kind, [Symbol(Count(domains, kind), key, display, false, true)])
  {
    var i := DomainAt(domains, kind);
    if i == |domains| || |domains[i].values| >= U32_LIMIT {
      return WireError;
    }
    var id := |domains[i].values|;
    var extended := domains[i := Domain(kind, domains[i].values + [Symbol(id, key, display, false, true)])];
    DomainKept(domains, extended, kind);
    return Ok((extended, id));
  }

  /** The domain of `kind` gained these symbols at its end, and nothing else changed. */
  ghost predicate Appended(domains: seq<Domain>, extended: seq<Domain>, kind: SymbolKind, added: seq<Symbol>) {
    var i := DomainAt(domains, kind);
    && i < |domains| && |extended| == |domains| && DomainAt(extended, kind) == i
    && (forall j :: 0 <= j < |domains| && j != i ==> extended[j] == domains[j])
    && extended[i] == Domain(kind, domains[i].values + added)
  }

  lemma AppendedCount(domains: seq<Domain>, extended: seq<Domain>, kind: SymbolKind, added: seq<Symbol>)
    requires Appended(domains, extended, kind, added)
    ensures Count(extended, kind) == Count(domains, kind) + |added|
  {
  }

  lemma DomainKept(domains: seq<Domain>, extended: seq<Domain>, kind: SymbolKind)
    requires |domains| == |extended| && forall j :: 0 <= j < |domains| ==> extended[j].kind == domains[j].kind
    ensures DomainAt(extended, kind) == DomainAt(domains, kind)
  {
  }

  // ---------- Predicates ----------

  predicate Matches(p: Predicate, kind: Kind, axis: Axis, symbol: nat) {
    p.kind == kind && (if axis.Classes? then p.symbol else p.role) == Some(symbol)
  }

  /** Two predicates have this identity. */
  ghost predicate Repeated(table: seq<Predicate>, kind: Kind, axis: Axis, symbol: nat) {
    exists i, j ::
      0 <= i < j < |table| && Matches(table[i], kind, axis, symbol) && Matches(table[j], kind, axis, symbol)
  }

  /** The table has gained at most the one predicate of an identity it lacked. */
  ghost predicate Grew(
    table: seq<Predicate>, grown: seq<Predicate>, kind: Kind, axis: Axis, symbol: nat, sorts: seq<Sort>)
  {
    if exists i :: 0 <= i < |table| && Matches(table[i], kind, axis, symbol) then grown == table
    else grown == table + [NewPredicate(|table|, kind, axis, symbol, sorts)]
  }

  /** Growing repeats no identity. */
  lemma GrowthRepeatsNothing(
    table: seq<Predicate>, grown: seq<Predicate>, kind: Kind, axis: Axis, symbol: nat, sorts: seq<Sort>, kind': Kind,
    symbol': nat)
    requires Grew(table, grown, kind, axis, symbol, sorts)
    ensures Repeated(grown, kind', axis, symbol') <==> Repeated(table, kind', axis, symbol')
  {
    if Repeated(table, kind', axis, symbol') {
      var i, j :| 0 <= i < j < |table| && Matches(table[i], kind', axis, symbol') &&
        Matches(table[j], kind', axis, symbol');
      assert grown[i] == table[i] && grown[j] == table[j];
    }
    if Repeated(grown, kind', axis, symbol') {
      var i, j :| 0 <= i < j < |grown| && Matches(grown[i], kind', axis, symbol') &&
        Matches(grown[j], kind', axis, symbol');
      assert grown[i] == table[i];
      assert j < |table| ==> grown[j] == table[j];
    }
  }

  function NewPredicate(id: nat, kind: Kind, axis: Axis, symbol: nat, sorts: seq<Sort>): (p: Predicate)
    ensures p.id == id && p.sorts == sorts && Matches(p, kind, axis, symbol)
  {
    Predicate(
      id, kind, sorts, if axis.Classes? then Some(symbol) else None, if axis.Classes? then None else Some(symbol),
      None, None, [], None)
  }

  /** The one place where the identity is found, if any. */
  method FindPredicate(predicates: seq<Predicate>, kind: Kind, axis: Axis, symbol: nat) returns (r: Wire<Option<nat>>)
    requires Numbered(predicates)
    ensures r.WireError? <==> Repeated(predicates, kind, axis, symbol)
    ensures r.Ok? && r.value.Some? ==>
      r.value.value < |predicates| && Matches(predicates[r.value.value], kind, axis, symbol)
    ensures r.Ok? && r.value.None? ==> forall i :: 0 <= i < |predicates| ==> !Matches(predicates[i], kind, axis, symbol)
  {
    hide Matches;
    var found: Option<nat> := None;
    for n := 0 to |predicates|
      invariant found.None? ==> forall i :: 0 <= i < n ==> !Matches(predicates[i], kind, axis, symbol)
      invariant found.Some? ==> found.value < n && Matches(predicates[found.value], kind, axis, symbol)
      invariant found.Some? ==> forall i :: 0 <= i < n && Matches(predicates[i], kind, axis, symbol) ==>
        i == found.value
    {
      if Matches(predicates[n], kind, axis, symbol) {
        if found.Some? {
          return WireError;
        }
        found := Some(predicates[n].id);
      }
    }
    return Ok(found);
  }

  /** Finds the predicate of this identity, adding it when it is new; two of them is a refusal. */
  method EnsurePredicate(predicates: seq<Predicate>, kind: Kind, axis: Axis, symbol: nat, sorts: seq<Sort>)
    returns (r: Wire<(seq<Predicate>, nat)>)
    requires Numbered(predicates)
    ensures r.WireError? <==>
      || Repeated(predicates, kind, axis, symbol)
      || (|predicates| >= U32_LIMIT && forall i :: 0 <= i < |predicates| ==>
         !Matches(predicates[i], kind, axis, symbol))
    ensures r.Ok? ==> Numbered(r.value.0) && Grew(predicates, r.value.0, kind, axis, symbol, sorts)
    ensures r.Ok? ==> r.value.1 < |r.value.0| && Matches(r.value.0[r.value.1], kind, axis, symbol)
  {
    hide Matches, NewPredicate, Repeated;
    var found :- FindPredicate(predicates, kind, axis, symbol);
    if found.Some? {
      return Ok((predicates, found.value));
    }
    if |predicates| >= U32_LIMIT {
      return WireError;
    }
    var id := |predicates|;
    return Ok((predicates + [NewPredicate(id, kind, axis, symbol, sorts)], id));
  }

  // ---------- The query ----------

  function Positive(axis: Axis): Kind { if axis.Classes? then Concept else ObjectRole }

  function Negative(axis: Axis): Kind { if axis.Classes? then NegatedConcept else NegatedObjectRole }

  function Sorts(axis: Axis): seq<Sort> { if axis.Classes? then [Object] else [Object, Object] }

  function Variables(axis: Axis): seq<Term> {
    if axis.Classes? then [Variable(0, Object)] else [Variable(0, Object), Variable(1, Object)]
  }

  function Witness(axis: Axis, n: nat): seq<Term> {
    if axis.Classes? then [Individual(n)] else [Individual(n), Individual(n + 1)]
  }

  /** The fresh individuals the witness is made of; the key is the query's digest, the kind of symbol and a number. */
  function WitnessSymbols(axis: Axis, n: nat, hash: seq<byte>): seq<Symbol> {
    var first := Symbol(n, hash + [5, 0], "classification witness:0", false, true);
    if axis.Classes? then [first]
    else [first, Symbol(n + 1, hash + [5, 1], "classification target:1", false, true)]
  }

  lemma WitnessSizes(axis: Axis, n: nat, hash: seq<byte>)
    ensures |WitnessSymbols(axis, n, hash)| == |Witness(axis, n)| == |Witness(axis, 0)|
  {
  }

  /** The predicate numbers a query uses for the child, the parent and the negated parent. */
  datatype Numbers = Numbers(child: nat, parent: nat, negated: nat)

  /** The child is asserted of the witness, except that every object is a Thing. */
  predicate AssertsChild(axis: Axis, child: nat, top: nat) { axis.ObjectProperties? || child != top }

  ghost predicate Names(table: seq<Predicate>, number: nat, kind: Kind, axis: Axis, symbol: nat) {
    number < |table| && Matches(table[number], kind, axis, symbol)
  }

  /** The numbers in use name the right predicates. */
  ghost predicate NamesAll(
    table: seq<Predicate>, numbers: Numbers, axis: Axis, child: nat, parent: nat, top: nat, bottom: nat)
  {
    && (AssertsChild(axis, child, top) ==> Names(table, numbers.child, Positive(axis), axis, child))
    && (parent != bottom ==>
         Names(table, numbers.parent, Positive(axis), axis, parent) &&
           Names(table, numbers.negated, Negative(axis), axis, parent))
  }

  /** A predicate the query uses: of the child where it is asserted, or of the parent unless that is bottom. */
  predicate Needed(kind: Kind, symbol: nat, axis: Axis, child: nat, parent: nat, top: nat, bottom: nat) {
    || (kind == Positive(axis) && symbol == child && AssertsChild(axis, child, top))
    || (kind in {Positive(axis), Negative(axis)} && symbol == parent && parent != bottom)
  }

  /** A predicate the query needs, with no field set but its own. */
  ghost predicate IsAdded(p: Predicate, k: nat, axis: Axis, child: nat, parent: nat, top: nat, bottom: nat) {
    exists kind, symbol ::
      Needed(kind, symbol, axis, child, parent, top, bottom) && p == NewPredicate(k, kind, axis, symbol, Sorts(axis))
  }

  /** The table kept its predicates and gained only ones the query needs. */
  ghost predicate Gained(
    table: seq<Predicate>, grown: seq<Predicate>, axis: Axis, child: nat, parent: nat, top: nat, bottom: nat)
  {
    && table <= grown
    && forall k :: |table| <= k < |grown| ==> IsAdded(grown[k], k, axis, child, parent, top, bottom)
  }

  function Clash(axis: Axis, numbers: Numbers, swap: bool): Clause {
    var holds, fails := Atom(numbers.parent, Variables(axis)), Atom(numbers.negated, Variables(axis));
    Clause(0, if swap then [fails, holds] else [holds, fails], [], [0], [0, 1])
  }

  /**
   The overlay: the witness is in the child and in the negated parent, and nothing is in both parent and negated
   parent.
   */
  ghost predicate IsQuery(
    p: Program, axis: Axis, child: nat, parent: nat, top: nat, bottom: nat, hash: seq<byte>, swap: bool,
      numbers: Numbers, q: Program)
  {
    var pair := Witness(axis, Count(p.domains, IndividualSymbol));
    && q.roles == p.roles && Numbered(q.predicates)
    && Gained(p.predicates, q.predicates, axis, child, parent, top, bottom)
    && Appended(p.domains, q.domains, IndividualSymbol,
         WitnessSymbols(axis, Count(p.domains, IndividualSymbol), hash))
    && q.negative == [] && q.disjunctions == [] && q.provenance == [Provenance(0, [hash], true)]
    && q.positive ==
       (if AssertsChild(axis, child, top) then [Fact(Atom(numbers.child, pair), [0])] else [])
       + (if parent != bottom then [Fact(Atom(numbers.negated, pair), [0])] else [])
    && q.clauses == (if parent != bottom then [Clash(axis, numbers, swap)] else [])
    && NamesAll(q.predicates, numbers, axis, child, parent, top, bottom)
  }

  ghost predicate IsBound(domains: seq<Domain>, display: string, symbol: nat) {
    exists k: nat ::
      ShownOnce(domains, ClassExpression, display, k) && symbol ==
      domains[DomainAt(domains, ClassExpression)].values[k].id
  }

  /** `top` and `bottom` are the symbols at the two ends of the domain. */
  ghost predicate AreBounds(p: Program, axis: Axis, top: nat, bottom: nat) {
    match axis
    case Classes => IsBound(p.domains, OWL_THING, top) && IsBound(p.domains, OWL_NOTHING, bottom)
    case ObjectProperties => top == p.roles.topObject && bottom == p.roles.bottomObject
  }

  lemma BoundsUnique(p: Program, axis: Axis, top: nat, bottom: nat, top': nat, bottom': nat)
    requires AreBounds(p, axis, top, bottom) && AreBounds(p, axis, top', bottom')
    ensures top == top' && bottom == bottom'
  {
  }

  method DomainBounds(p: Program, axis: Axis) returns (r: Wire<(nat, nat)>)
    ensures r.Ok? ==> AreBounds(p, axis, r.value.0, r.value.1)
    ensures r.WireError? ==> forall top, bottom :: !AreBounds(p, axis, top, bottom)
  {
    if axis.ObjectProperties? {
      return Ok((p.roles.topObject, p.roles.bottomObject));
    }
    var top :- SymbolByDisplay(p.domains, ClassExpression, OWL_THING);
    var bottom :- SymbolByDisplay(p.domains, ClassExpression, OWL_NOTHING);
    return Ok((top, bottom));
  }

  /** Every kind of symbol has exactly one domain, of 32-bit size. */
  ghost predicate DomainsBounded(domains: seq<Domain>) {
    && (forall i, j :: 0 <= i < j < |domains| ==> domains[i].kind != domains[j].kind)
    && (forall i :: 0 <= i < |domains| ==> |domains[i].values| < U32_LIMIT)
    && (forall kind: SymbolKind :: DomainAt(domains, kind) < |domains|)
  }

  const SYMBOL_KINDS := {
    Entity, ClassExpression, DataRangeSymbol, ObjectRoleSymbol, DataProperty, IndividualSymbol, SourceLiteral,
      DataValue}

  /** Sizes of the domains seen, unless one is too large or of a kind seen before. */
  method DomainSizes(domains: seq<Domain>) returns (r: Wire<map<SymbolKind, nat>>)
    ensures r.Ok? ==> forall i, j :: 0 <= i < j < |domains| ==> domains[i].kind != domains[j].kind
    ensures r.Ok? ==> forall i :: 0 <= i < |domains| ==> |domains[i].values| < U32_LIMIT
    ensures r.Ok? ==> forall kind :: kind in r.value <==> DomainAt(domains, kind) < |domains|
    ensures r.Ok? ==> forall kind :: kind in r.value ==> r.value[kind] == Count(domains, kind)
    ensures r.WireError? ==> !DomainsBounded(domains)
  {
    hide DomainAt;
    var sizes: map<SymbolKind, nat> := map[];
    for n := 0 to |domains|
      invariant forall i, j :: 0 <= i < j < n ==> domains[i].kind != domains[j].kind
      invariant forall i :: 0 <= i < n ==> |domains[i].values| < U32_LIMIT
      invariant forall kind :: kind in sizes <==> DomainAt(domains, kind) < n
      invariant forall kind :: kind in sizes ==> sizes[kind] == Count(domains, kind)
    {
      var domain := domains[n];
      if domain.kind in sizes || |domain.values| >= U32_LIMIT {
        assert domain.kind in sizes ==> domains[DomainAt(domains, domain.kind)].kind == domain.kind;
        return WireError;
      }
      assert DomainAt(domains, domain.kind) == n;
      sizes := sizes[domain.kind := |domain.values|];
    }
    return Ok(sizes);
  }

  /** The number of symbols of every kind; a kind without a domain or with two is a refusal. */
  method SymbolBoundaries(domains: seq<Domain>) returns (r: Wire<map<SymbolKind, nat>>)
    ensures r.Ok? <==> DomainsBounded(domains)
    ensures r.Ok? ==> forall kind :: kind in r.value && r.value[kind] == Count(domains, kind)
  {
    hide DomainAt, Count;
    var sizes :- DomainSizes(domains);
    if !(SYMBOL_KINDS <= sizes.Keys) {
      ghost var kind :| kind in SYMBOL_KINDS && kind !in sizes;
      return WireError;
    }
    return Ok(sizes);
  }

  /** There are individuals, and numbers left for the witness. */
  predicate HasRoom(domains: seq<Domain>, axis: Axis) {
    DomainAt(domains, IndividualSymbol) < |domains| && Count(domains, IndividualSymbol) +
      |Witness(axis, 0)| <= U32_LIMIT
  }

  /** The witness individuals: one for classes, two for object properties. */
  method AppendWitness(domains: seq<Domain>, axis: Axis, hash: seq<byte>) returns (r: Wire<seq<Domain>>)
    ensures r.Ok? <==> HasRoom(domains, axis)
    ensures r.Ok? ==>
      Appended(domains, r.value, IndividualSymbol, WitnessSymbols(axis, Count(domains, IndividualSymbol), hash))
  {
    var first :- AppendQuerySymbol(domains, IndividualSymbol, hash + [5, 0], "classification witness:0");
    if axis.Classes? {
      return Ok(first.0);
    }
    var second :- AppendQuerySymbol(first.0, IndividualSymbol, hash + [5, 1], "classification target:1");
    return Ok(second.0);
  }

  /** A predicate the query needs is in the table twice. */
  ghost predicate Ambiguous(table: seq<Predicate>, axis: Axis, child: nat, parent: nat, top: nat, bottom: nat) {
    || (AssertsChild(axis, child, top) && Repeated(table, Positive(axis), axis, child))
    || (parent != bottom && (Repeated(table, Positive(axis), axis, parent) ||
       Repeated(table, Negative(axis), axis, parent)))
  }

  /** One more predicate of the query, found or added. */
  lemma GainedStep(
    table: seq<Predicate>, grown: seq<Predicate>, more: seq<Predicate>, kind: Kind, symbol: nat, axis: Axis,
    child: nat, parent: nat, top: nat, bottom: nat)
    requires Gained(table, grown, axis, child, parent, top, bottom)
    requires Grew(grown, more, kind, axis, symbol, Sorts(axis))
    requires Needed(kind, symbol, axis, child, parent, top, bottom)
    ensures Gained(table, more, axis, child, parent, top, bottom) && grown <= more && |more| <= |grown| + 1
  {
    hide Matches, NewPredicate, Sorts, Needed;
    assert forall k :: 0 <= k < |grown| ==> more[k] == grown[k];
  }

  lemma GainedNothing(table: seq<Predicate>, axis: Axis, child: nat, parent: nat, top: nat, bottom: nat)
    ensures Gained(table, table, axis, child, parent, top, bottom)
  {
  }

  /** The predicates the query needs, each found or added. */
  method NumberPredicates(table: seq<Predicate>, axis: Axis, child: nat, parent: nat, top: nat, bottom: nat)
    returns (r: Wire<(seq<Predicate>, Numbers)>)
    requires Numbered(table)
    ensures r.Ok? ==>
      && Gained(table, r.value.0, axis, child, parent, top, bottom) && Numbered(r.value.0)
      && NamesAll(r.value.0, r.value.1, axis, child, parent, top, bottom)
    ensures |table| + 3 <= U32_LIMIT ==> (r.WireError? <==> Ambiguous(table, axis, child, parent, top, bottom))
  {
    hide Matches, Positive, Negative, Sorts, Repeated, AssertsChild, Gained, Grew, Numbered;
    var grown, numbers := table, Numbers(0, 0, 0);
    GainedNothing(table, axis, child, parent, top, bottom);
    if AssertsChild(axis, child, top) {
      var positive :- EnsurePredicate(grown, Positive(axis), axis, child, Sorts(axis));
      GrowthRepeatsNothing(grown, positive.0, Positive(axis), axis, child, Sorts(axis), Positive(axis), parent);
      GrowthRepeatsNothing(grown, positive.0, Positive(axis), axis, child, Sorts(axis), Negative(axis), parent);
      GainedStep(table, grown, positive.0, Positive(axis), child, axis, child, parent, top, bottom);
      grown, numbers := positive.0, numbers.(child := positive.1);
    }
    if parent != bottom {
      var positive :- EnsurePredicate(grown, Positive(axis), axis, parent, Sorts(axis));
      GrowthRepeatsNothing(grown, positive.0, Positive(axis), axis, parent, Sorts(axis), Negative(axis), parent);
      GainedStep(table, grown, positive.0, Positive(axis), parent, axis, child, parent, top, bottom);
      var negative :- EnsurePredicate(positive.0, Negative(axis), axis, parent, Sorts(axis));
      GainedStep(table, positive.0, negative.0, Negative(axis), parent, axis, child, parent, top, bottom);
      grown, numbers := negative.0, numbers.(parent := positive.1, negated := negative.1);
    }
    return Ok((grown, numbers));
  }

  /** What a program must offer for the query to be built. */
  ghost predicate Buildable(p: Program, axis: Axis, child: nat, parent: nat) {
    && DomainsBounded(p.domains) && HasRoom(p.domains, axis)
    && exists top, bottom ::
       AreBounds(p, axis, top, bottom) && !Ambiguous(p.predicates, axis, child, parent, top, bottom)
  }

  /**
   Builds the overlay. `swap` is the order in which the canonical encoding puts the two atoms of the
   clash clause.
   */
  method BuildCounterexampleQuery(p: Program, axis: Axis, child: nat, parent: nat, hash: seq<byte>, swap: bool)
    returns (r: Wire<Program>)
    requires Numbered(p.predicates)
    ensures r.Ok? ==> exists top, bottom, numbers ::
      AreBounds(p, axis, top, bottom) && IsQuery(p, axis, child, parent, top, bottom, hash, swap, numbers, r.value)
    ensures r.Ok? ==>
      Count(r.value.domains, IndividualSymbol) == Count(p.domains, IndividualSymbol) + |Witness(axis, 0)|
    ensures |p.predicates| + 3 <= U32_LIMIT ==> (r.Ok? <==> Buildable(p, axis, child, parent))
  {
    hide Repeated, HasRoom, Ambiguous, Count, AreBounds, NamesAll, Numbered, Clash, Witness, DomainsBounded;
    var boundaries :- SymbolBoundaries(p.domains);
    var n := Count(p.domains, IndividualSymbol);
    var domains :- AppendWitness(p.domains, axis, hash);
    AppendedCount(p.domains, domains, IndividualSymbol, WitnessSymbols(axis, n, hash));
    WitnessSizes(axis, n, hash);
    var bounds :- DomainBounds(p, axis);
    forall top, bottom | AreBounds(p, axis, top, bottom) ensures top == bounds.0 && bottom == bounds.1 {
      BoundsUnique(p, axis, top, bottom, bounds.0, bounds.1);
    }
    var numbered :- NumberPredicates(p.predicates, axis, child, parent, bounds.0, bounds.1);
    var numbers := numbered.1;
    var facts, clauses := [], [];
    if AssertsChild(axis, child, bounds.0) {
      facts := [Fact(Atom(numbers.child, Witness(axis, n)), [0])];
    }
    if parent != bounds.1 {
      facts := facts + [Fact(Atom(numbers.negated, Witness(axis, n)), [0])];
      clauses := [Clash(axis, numbers, swap)];
    }
    var q := Program(domains, numbered.0, clauses, facts, [], [], p.roles, [Provenance(0, [hash], true)]);
    assert IsQuery(p, axis, child, parent, bounds.0, bounds.1, hash, swap, numbers, q);
    return Ok(q);
  }

  // ---------- What the query decides ----------

  /** The witness is in the extension of a class (by its first component) or of an object property. */
  ghost predicate Instance<D, V>(i: Interp<D, V>, axis: Axis, symbol: nat, d: D, e: D) {
    if axis.Classes? then i.concept(symbol, d) else i.role(symbol, d, e)
  }

  /** Top holds of everything and bottom of nothing. */
  ghost predicate Fixed<D(!new), V>(i: Interp<D, V>, axis: Axis, top: nat, bottom: nat) {
    forall d, e :: Instance(i, axis, top, d, e) && !Instance(i, axis, bottom, d, e)
  }

  /** Laws of the setting, such as those of the role model, that do not speak of individuals from `n` up. */
  ghost predicate Local<D(!new), V(!new)>(laws: Interp<D, V> -> bool, n: nat) {
    forall i, j: Interp<D, V> :: Agree(i, j, n) ==> laws(i) == laws(j)
  }

  ghost predicate IsModel<D(!new), V(!new)>(
    i: Interp<D, V>, p: Program, axis: Axis, top: nat, bottom: nat, laws: Interp<D, V> -> bool)
  {
    laws(i) && Fixed(i, axis, top, bottom) && Satisfies(i, p.predicates, p)
  }

  ghost predicate HasModel<D(!new), V(!new)>(
    p: Program, axis: Axis, top: nat, bottom: nat, laws: Interp<D, V> -> bool)
  {
    exists i: Interp<D, V> :: IsModel(i, p, axis, top, bottom, laws)
  }

  /** Some model has an element, or a pair, in the child and outside the parent. */
  ghost predicate HasCounterexample<D(!new), V(!new)>(
    p: Program, axis: Axis, child: nat, parent: nat, top: nat, bottom: nat, laws: Interp<D, V> -> bool)
  {
    exists i: Interp<D, V>, d: D, e: D ::
      IsModel(i, p, axis, top, bottom, laws) && Instance(i, axis, child, d, e) && !Instance(i, axis, parent, d, e)
  }

  /** A named positive or negated predicate holds of the witness exactly when it should. */
  lemma WitnessHolds<D(!new), V(!new)>(
    i: Interp<D, V>, env: Assignment<D, V>, table: seq<Predicate>, number: nat, axis: Axis, symbol: nat,
      arguments: seq<Term>, d: D, e: D)
    requires |arguments| == |Witness(axis, 0)|
    requires Denoted(i, env, arguments[0]) == Element(d) && (axis.ObjectProperties? ==>
      Denoted(i, env, arguments[1]) == Element(e))
    ensures Names(table, number, Positive(axis), axis, symbol) ==>
      (Holds(i, table, env, Atom(number, arguments)) <==> Instance(i, axis, symbol, d, e))
    ensures Names(table, number, Negative(axis), axis, symbol) ==>
      (Holds(i, table, env, Atom(number, arguments)) <==> !Instance(i, axis, symbol, d, e))
  {
    var values := DenotedAll(i, env, arguments);
    assert values[0] == Element(d);
    assert axis.ObjectProperties? ==> values[1] == Element(e);
  }

  /** The clash clause is true in every interpretation. */
  lemma ClashTrue<D(!new), V(!new)>(
    i: Interp<D, V>, table: seq<Predicate>, axis: Axis, parent: nat, numbers: Numbers, swap: bool)
    requires Names(table, numbers.parent, Positive(axis), axis, parent) &&
      Names(table, numbers.negated, Negative(axis), axis, parent)
    ensures ClauseTrue(i, table, Clash(axis, numbers, swap).body, Clash(axis, numbers, swap).head)
  {
    var body := Clash(axis, numbers, swap).body;
    forall env: Assignment<D, V> ensures !AllHold(i, table, env, body) {
      WitnessHolds(i, env, table, numbers.parent, axis, parent, Variables(axis), env.objects(0), env.objects(1));
      WitnessHolds(i, env, table, numbers.negated, axis, parent, Variables(axis), env.objects(0), env.objects(1));
      var k := if swap then 1 else 0;
      assert body[k] == Atom(numbers.parent, Variables(axis)) && body[1 - k] == Atom(numbers.negated, Variables(axis));
      assert !Holds(i, table, env, body[k]) || !Holds(i, table, env, body[1 - k]);
    }
  }

  /** A fact about the witness is true exactly when the witness is, or is not, an instance. */
  lemma WitnessFact<D(!new), V(!new)>(
    i: Interp<D, V>, table: seq<Predicate>, number: nat, axis: Axis, symbol: nat, n: nat)
    ensures Names(table, number, Positive(axis), axis, symbol) ==>
      (FactTrue(i, table, Atom(number, Witness(axis, n))) <==>
        Instance(i, axis, symbol, i.individual(n), i.individual(n + 1)))
    ensures Names(table, number, Negative(axis), axis, symbol) ==>
      (FactTrue(i, table, Atom(number, Witness(axis, n))) <==>
        !Instance(i, axis, symbol, i.individual(n), i.individual(n + 1)))
  {
    hide Names, Instance, Holds;
    var fact := Atom(number, Witness(axis, n));
    forall env: Assignment<D, V>
      ensures Names(table, number, Positive(axis), axis, symbol) ==>
        (Holds(i, table, env, fact) <==> Instance(i, axis, symbol, i.individual(n), i.individual(n + 1)))
      ensures Names(table, number, Negative(axis), axis, symbol) ==>
        (Holds(i, table, env, fact) <==> !Instance(i, axis, symbol, i.individual(n), i.individual(n + 1)))
    {
      WitnessHolds(i, env, table, number, axis, symbol, Witness(axis, n), i.individual(n), i.individual(n + 1));
    }
    var env := Assignment(i.individual, (x: nat) => i.literal(0, x));
    assert FactTrue(i, table, fact) ==> Holds(i, table, env, fact);
  }

  lemma TwoFacts<D(!new), V(!new)>(i: Interp<D, V>, table: seq<Predicate>, first: seq<Fact>, second: seq<Fact>)
    requires |first| <= 1 && |second| <= 1
    ensures FactsTrue(i, table, first + second) <==>
      (first != [] ==> FactTrue(i, table, first[0].atom)) && (second != [] ==> FactTrue(i, table, second[0].atom))
  {
    hide FactTrue;
    var all := first + second;
    assert first != [] ==> all[0] == first[0];
    assert second != [] ==> all[|first|] == second[0];
  }

  /** The overlay is satisfied exactly when the witness is in the child and outside the parent. */
  lemma QueryMeans<D(!new), V(!new)>(
    i: Interp<D, V>, p: Program, axis: Axis, child: nat, parent: nat, top: nat, bottom: nat, hash: seq<byte>,
      swap: bool, numbers: Numbers, q: Program)
    requires IsQuery(p, axis, child, parent, top, bottom, hash, swap, numbers, q) && Fixed(i, axis, top, bottom)
    ensures
      var n := Count(p.domains, IndividualSymbol);
      var d, e := i.individual(n), i.individual(n + 1);
      Satisfies(i, q.predicates, q) <==> Instance(i, axis, child, d, e) && !Instance(i, axis, parent, d, e)
  {
    hide Count, FactTrue, ClauseTrue, Clash, Names, Witness, Instance, FactsTrue;
    var n, table := Count(p.domains, IndividualSymbol), q.predicates;
    var d, e := i.individual(n), i.individual(n + 1);
    assert Instance(i, axis, top, d, e) && !Instance(i, axis, bottom, d, e);
    WitnessFact(i, table, numbers.child, axis, child, n);
    WitnessFact(i, table, numbers.negated, axis, parent, n);
    if parent != bottom { ClashTrue(i, table, axis, parent, numbers, swap); }
    var first := if AssertsChild(axis, child, top) then [Fact(Atom(numbers.child, Witness(axis, n)), [0])] else [];
    var second := if parent != bottom then [Fact(Atom(numbers.negated, Witness(axis, n)), [0])] else [];
    assert q.positive == first + second;
    TwoFacts(i, table, first, second);
    TwoFacts(i, table, [], []);
    assert q.negative == [] + [];
  }

  lemma {:induction false} WitnessPlaced<D(!new), V(!new)>(
    i: Interp<D, V>, n: nat, d: D, e: D)
    returns (j: Interp<D, V>)
    ensures Agree(i, j, n) && j.individual(n) == d && j.individual(n + 1) == e
  {
    j := i.(individual := (k: nat) => if k == n then d else if k == n + 1 then e else i.individual(k));
  }

  /**
   The reduction is sound and complete, over any domain of objects and of data values: the ontology
   merged with the query has a model exactly when the ontology has one in which the subsumption fails.
   */
  lemma CounterexampleReduction<D(!new), V(!new)>(
    o: Ontology, q: Program, axis: Axis, child: nat, parent: nat, top: nat, bottom: nat, hash: seq<byte>, swap: bool,
      numbers: Numbers,
    laws: Interp<D, V> -> bool)
    requires IsQuery(o.program, axis, child, parent, top, bottom, hash, swap, numbers, q) && Combinable(o, Some(q))
    requires ProgramWithin(o.program, |o.program.predicates|, Count(o.program.domains, IndividualSymbol))
    requires Local(laws, Count(o.program.domains, IndividualSymbol))
    ensures HasModel(Combined(o, Some(q)).program, axis, top, bottom, laws)
      <==> HasCounterexample(o.program, axis, child, parent, top, bottom, laws)
  {
    var n, combined := Count(o.program.domains, IndividualSymbol), Combined(o, Some(q)).program;
    if HasModel(combined, axis, top, bottom, laws) {
      var i: Interp<D, V> :| IsModel(i, combined, axis, top, bottom, laws);
      QueryRefutes(o, q, axis, child, parent, top, bottom, hash, swap, numbers, laws, i);
    }
    if HasCounterexample(o.program, axis, child, parent, top, bottom, laws) {
      var i: Interp<D, V>, d: D, e: D :|
        IsModel(i, o.program, axis, top, bottom, laws) && Instance(i, axis, child, d, e) &&
          !Instance(i, axis, parent, d, e);
      QueryModelled(o, q, axis, child, parent, top, bottom, hash, swap, numbers, laws, i, d, e);
    }
  }

  lemma QueryRefutes<D(!new), V(!new)>(
    o: Ontology, q: Program, axis: Axis, child: nat, parent: nat, top: nat, bottom: nat, hash: seq<byte>, swap: bool,
      numbers: Numbers,
    laws: Interp<D, V> -> bool, i: Interp<D, V>)
    requires IsQuery(o.program, axis, child, parent, top, bottom, hash, swap, numbers, q) && Combinable(o, Some(q))
    requires ProgramWithin(o.program, |o.program.predicates|, Count(o.program.domains, IndividualSymbol))
    requires IsModel(i, Combined(o, Some(q)).program, axis, top, bottom, laws)
    ensures HasCounterexample(o.program, axis, child, parent, top, bottom, laws)
  {
    hide Satisfies, Combined, Combinable, Count, ProgramWithin, Fixed;
    var n := Count(o.program.domains, IndividualSymbol);
    CombinedModelsOwnTables(o, Some(q), n, i);
    CombinedTable(o, q);
    QueryMeans(i, o.program, axis, child, parent, top, bottom, hash, swap, numbers, q);
    assert IsModel(i, o.program, axis, top, bottom, laws);
  }

  lemma QueryModelled<D(!new), V(!new)>(
    o: Ontology, q: Program, axis: Axis, child: nat, parent: nat, top: nat, bottom: nat, hash: seq<byte>, swap: bool,
      numbers: Numbers,
    laws: Interp<D, V> -> bool, i: Interp<D, V>, d: D, e: D)
    requires IsQuery(o.program, axis, child, parent, top, bottom, hash, swap, numbers, q) && Combinable(o, Some(q))
    requires ProgramWithin(o.program, |o.program.predicates|, Count(o.program.domains, IndividualSymbol))
    requires Local(laws, Count(o.program.domains, IndividualSymbol))
    requires IsModel(i, o.program, axis, top, bottom, laws) && Instance(i, axis, child, d, e) &&
      !Instance(i, axis, parent, d, e)
    ensures HasModel(Combined(o, Some(q)).program, axis, top, bottom, laws)
  {
    hide Satisfies, Combined, Combinable, Count, ProgramWithin;
    var n, own := Count(o.program.domains, IndividualSymbol), o.program.predicates;
    var j := WitnessPlaced(i, n, d, e);
    assert Fixed(j, axis, top, bottom) by {
      forall x, y ensures Instance(j, axis, top, x, y) && !Instance(j, axis, bottom, x, y) {
        assert Instance(i, axis, top, x, y) && !Instance(i, axis, bottom, x, y);
      }
    }
    ProgramAgrees(i, j, n, own, own, o.program);
    QueryMeans(j, o.program, axis, child, parent, top, bottom, hash, swap, numbers, q);
    CombinedModelsOwnTables(o, Some(q), n, j);
    CombinedTable(o, q);
    assert IsModel(j, Combined(o, Some(q)).program, axis, top, bottom, laws);
  }

  lemma CombinedTable(o: Ontology, q: Program)
    requires Combinable(o, Some(q))
    ensures Combined(o, Some(q)).program.predicates == q.predicates
  {
  }

  // ---------- The merge of the query never dangles ----------

  lemma {:induction false} MergeNoLonger<K(!new)>(entries: seq<Entry<K>>, shape: K -> nat)
    requires Shaped(shape, entries)
    ensures |MergeAll(entries, shape)| <= |entries|
  {
    if entries != [] { MergeNoLonger(entries[..|entries| - 1], shape); }
  }

  /** With room for one more clause and one more provenance entry, the built query is never refused by the merge. */
  lemma QueryCombines(
    o: Ontology, q: Program, axis: Axis, child: nat, parent: nat, top: nat, bottom: nat, hash: seq<byte>, swap: bool,
      numbers: Numbers)
    requires IsQuery(o.program, axis, child, parent, top, bottom, hash, swap, numbers, q)
    requires DistinctIdentities(o.program.provenance) && |o.program.provenance| < U32_LIMIT
    requires |o.program.clauses| < U32_LIMIT && |o.program.disjunctions| <= U32_LIMIT
    ensures Combinable(o, Some(q))
  {
    hide MergeAll, Remap, Mapping, DistinctIdentities, NamesAll, Gained, Appended, WitnessSymbols, Count;
    var p := o.program;
    ExtendedLast(p.provenance, [], q.provenance[0]);
    assert [] + [q.provenance[0]] == q.provenance;
    assert TableMerges(p.provenance, q.provenance);
    var mapping := MappingFor(p, q);
    assert 0 in mapping by {
      ExtendedTable(p.provenance, q.provenance);
      MappingOf(Extended(p.provenance, q.provenance), q.provenance, 0);
    }
    QueryResolves(ClauseEntries(q.clauses), mapping);
    QueryResolves(FactEntries(q.positive), mapping);
    QueryResolves(FactEntries(q.negative), mapping);
    QueryResolves(DisjunctionEntries(q.disjunctions), mapping);
    MergeNoLonger(ClauseEntries(p.clauses) + Moved(ClauseEntries(q.clauses), mapping), OneTrack);
    MergeNoLonger(DisjunctionEntries(p.disjunctions) + Moved(DisjunctionEntries(q.disjunctions), mapping),
      DisjunctTracks);
  }

  lemma QueryResolves<K>(entries: seq<Entry<K>>, mapping: map<nat, nat>)
    requires 0 in mapping && forall k :: 0 <= k < |entries| ==> entries[k].tracks == [[0]]
    ensures Resolve(entries, mapping)
  {
    forall k | 0 <= k < |entries| ensures Remap(entries[k], mapping).Ok? {
      assert RemapTracks(entries[k].tracks, mapping).Ok?;
    }
  }
}
