/** What the decoder demands of a program, and that merging a query into one keeps it. */
module Formation {
  import opened Bytes
  import opened Programs
  import opened Sorting
  import opened MergeList
  import opened Merge
  import opened Combination
  import opened Counterexample

  // ---------- Atoms ----------

  /** How many things an atom may refer to. */
  datatype Sizes = Sizes(individuals: nat, literals: nat, values: nat)

  function SizesOf(domains: seq<Domain>): Sizes {
    Sizes(Count(domains, IndividualSymbol), Count(domains, SourceLiteral), Count(domains, DataValue))
  }

  predicate NoLarger(a: Sizes, b: Sizes) {
    a.individuals <= b.individuals && a.literals <= b.literals && a.values <= b.values
  }

  function SortOf(t: Term): Sort {
    match t
    case Variable(_, sort) => sort
    case Individual(_) => Object
    case Literal(_, _) => Data
  }

  /** The term is of this sort and refers to something there is; a ground one is no variable. */
  predicate TermFits(t: Term, sort: Sort, sizes: Sizes, ground: bool) {
    && SortOf(t) == sort
    && match t
       case Variable(_, _) => !ground
       case Individual(n) => n < sizes.individuals
       case Literal(source, identity) => source < sizes.literals && identity < sizes.values
  }

  /** The predicate is in the table, with as many arguments as it has sorts, each of its sort. */
  predicate AtomFits(a: Atom, table: seq<Predicate>, sizes: Sizes, ground: bool) {
    && a.relation < |table| && |a.arguments| == |table[a.relation].sorts|
    && forall k :: 0 <= k < |a.arguments| ==> TermFits(a.arguments[k], table[a.relation].sorts[k], sizes, ground)
  }

  predicate AtomsFit(atoms: seq<Atom>, table: seq<Predicate>, sizes: Sizes, ground: bool) {
    forall k :: 0 <= k < |atoms| ==> AtomFits(atoms[k], table, sizes, ground)
  }

  /** What fits stays fitting when the table and the domains grow. */
  lemma AtomsFitLonger(
    atoms: seq<Atom>, table: seq<Predicate>, sizes: Sizes, longer: seq<Predicate>, larger: Sizes, ground: bool)
    requires AtomsFit(atoms, table, sizes, ground) && table <= longer && NoLarger(sizes, larger)
    ensures AtomsFit(atoms, longer, larger, ground)
  {
    forall k | 0 <= k < |atoms| ensures AtomFits(atoms[k], longer, larger, ground) {
      assert AtomFits(atoms[k], table, sizes, ground);
      assert longer[atoms[k].relation] == table[atoms[k].relation];
    }
  }

  // ---------- Clauses, facts and disjunctions ----------

  /** A permutation of the positions below `n`. */
  predicate IsOrder(order: seq<nat>, n: nat) {
    && |order| == n && (forall i :: 0 <= i < n ==> order[i] < n)
    && (forall i, j :: 0 <= i < j < n ==> order[i] != order[j])
  }

  /** A rule that says something: not empty, and no body atom is a head atom. */
  predicate ClauseFits(key: ClauseKey, table: seq<Predicate>, sizes: Sizes) {
    && (key.0 != [] || key.1 != []) && AtomsFit(key.0, table, sizes, false) && AtomsFit(key.1, table, sizes, false)
    && (forall k :: 0 <= k < |key.0| ==> key.0[k] !in key.1)
    && IsOrder(key.2, |key.0|)
  }

  predicate FactFits(a: Atom, table: seq<Predicate>, sizes: Sizes) {
    AtomFits(a, table, sizes, true)
  }

  predicate DisjunctsFit(atoms: seq<Atom>, table: seq<Predicate>, sizes: Sizes) {
    |atoms| >= 2 && AtomsFit(atoms, table, sizes, true)
  }

  function KeyOf(c: Clause): ClauseKey {
    (c.body, c.head, c.joinOrder)
  }

  ghost predicate ClausesHave(clauses: seq<Clause>, fits: ClauseKey -> bool) {
    forall k :: 0 <= k < |clauses| ==> fits(KeyOf(clauses[k]))
  }

  ghost predicate FactsHave(facts: seq<Fact>, fits: Atom -> bool) {
    forall k :: 0 <= k < |facts| ==> fits(facts[k].atom)
  }

  ghost predicate DisjunctionsHave(ds: seq<Disjunction>, fits: seq<Atom> -> bool) {
    forall k :: 0 <= k < |ds| ==> fits(Atoms(ds[k].disjuncts))
  }

  /** Provenance numbers: some, in order, each of an entry there is. */
  predicate Cited(ids: seq<nat>, count: nat) {
    ids != [] && Rising(ids) && forall k :: 0 <= k < |ids| ==> ids[k] < count
  }

  ghost predicate ClausesCited(clauses: seq<Clause>, count: nat) {
    forall k :: 0 <= k < |clauses| ==> clauses[k].id == k && Cited(clauses[k].provenance, count)
  }

  ghost predicate FactsCited(facts: seq<Fact>, count: nat) {
    forall k :: 0 <= k < |facts| ==> Cited(facts[k].provenance, count)
  }

  /** Every disjunct has the provenance of its disjunction. */
  predicate OneProvenance(d: Disjunction) {
    forall t :: 0 <= t < |d.disjuncts| ==> d.disjuncts[t].provenance == d.provenance
  }

  ghost predicate DisjunctionsCited(ds: seq<Disjunction>, count: nat) {
    forall k :: 0 <= k < |ds| ==> ds[k].id == k && Cited(ds[k].provenance, count) && OneProvenance(ds[k])
  }

  // ---------- Predicates ----------

  const UNARY := {
    Concept, NegatedConcept, Nominal, NegatedNominal, AtLeastObject, AtLeastData, AutomatonState, DisjointGuard,
    NamedIndividual}

  predicate SortsFit(kind: Kind, sorts: seq<Sort>) {
    && (kind in UNARY ==> sorts == [Object])
    && (kind in {ObjectRole, NegatedObjectRole} ==> sorts == [Object, Object])
    && (kind in {DataRole, NegatedDataRole} ==> sorts == [Object, Data])
    && (kind in {DataRange, NegatedDataRange} ==> sorts != [] && forall k :: 0 <= k < |sorts| ==> sorts[k] == Data)
    && (kind in {Equality, Inequality, OrderingGuard} ==> |sorts| == 2 && sorts[0] == sorts[1])
    && (kind == AnnotatedEquality ==> sorts == [Object, Object, Object])
  }

  /** Which of the optional fields are set. */
  predicate FieldsFit(p: Predicate) {
    && (if p.kind in {AtLeastObject, AtLeastData, AnnotatedEquality} then
          p.cardinality.Some? && p.cardinality.value > 0 && p.role.Some? && p.filler.Some?
        else
          && p.cardinality.None? && p.filler.None?
          && (p.role.Some? <==> p.kind in {ObjectRole, NegatedObjectRole, DataRole, NegatedDataRole}))
    && (p.kind !in {Nominal, NegatedNominal, AtLeastData, AutomatonState, DisjointGuard} ==> p.annotation == [])
    && (p.kind == AtLeastData ==> p.annotation != [] && Some(p.annotation[0]) == p.role)
    && (p.kind == AutomatonState ==> |p.annotation| == 2) && (p.kind == DisjointGuard ==> |p.annotation| == 1)
    && (p.internalKey.Some? <==> p.kind in {AutomatonState, DisjointGuard, OrderingGuard, NamedIndividual})
    && (p.kind == OrderingGuard && p.sorts != [] ==>
         p.internalKey == Some(if p.sorts[0].Object? then "canonical-object-order" else "canonical-data-order"))
  }

  /** Symbols, nominals and object roles that a predicate refers to are there. */
  predicate ReferencesFit(p: Predicate, domains: seq<Domain>, objectRoles: nat) {
    && (if p.kind in {Concept, NegatedConcept, Nominal, NegatedNominal} then
          p.symbol.Some? && p.symbol.value < Count(domains, ClassExpression)
        else if p.kind in {DataRange, NegatedDataRange} then
          p.symbol.Some? && p.symbol.value < Count(domains, DataRangeSymbol)
        else p.symbol.None?)
    && (p.kind in {Nominal, NegatedNominal} ==> Cited(p.annotation, Count(domains, IndividualSymbol)))
    && (p.kind in {ObjectRole, NegatedObjectRole, AtLeastObject, AnnotatedEquality} && p.role.Some? ==>
         p.role.value < objectRoles)
  }

  /** The filler is another predicate, of the right kind. */
  predicate FillerFits(p: Predicate, table: seq<Predicate>) {
    p.filler.Some? ==>
      && p.filler.value < |table| && p.filler.value != p.id
      && var filler := table[p.filler.value];
      && (p.kind in {AtLeastObject, AnnotatedEquality} ==>
           filler.kind in {Concept, NegatedConcept, Nominal, NegatedNominal})
      && (p.kind == AtLeastData ==>
           filler.kind in {DataRange, NegatedDataRange} && |filler.sorts| == |p.annotation|)
  }

  predicate PredicateFits(p: Predicate, table: seq<Predicate>, domains: seq<Domain>, objectRoles: nat) {
    SortsFit(p.kind, p.sorts) && FieldsFit(p) && ReferencesFit(p, domains, objectRoles) && FillerFits(p, table)
  }

  ghost predicate TableFits(table: seq<Predicate>, domains: seq<Domain>, objectRoles: nat) {
    Numbered(table) && forall k :: 0 <= k < |table| ==> PredicateFits(table[k], table, domains, objectRoles)
  }

  // ---------- Symbols ----------

  const DOMAIN_ORDER: seq<SymbolKind> := [
    ClassExpression, DataProperty, DataRangeSymbol, DataValue, Entity, IndividualSymbol, ObjectRoleSymbol,
    SourceLiteral]

  /** A symbol is numbered by its place, and has a key and a display. */
  predicate SymbolFits(s: Symbol, k: nat) {
    s.id == k && s.key != [] && s.display != ""
  }

  /** One domain of each kind, in the canonical order. */
  ghost predicate DomainsFit(domains: seq<Domain>) {
    && |domains| == |DOMAIN_ORDER| && (forall i :: 0 <= i < |domains| ==> domains[i].kind == DOMAIN_ORDER[i])
    && (forall i, k :: 0 <= i < |domains| && 0 <= k < |domains[i].values| ==> SymbolFits(domains[i].values[k], k))
  }

  function ValuesOf(domains: seq<Domain>, kind: SymbolKind): (values: seq<Symbol>)
    ensures |values| == Count(domains, kind)
  {
    var i := DomainAt(domains, kind);
    if i < |domains| then domains[i].values else []
  }

  ghost predicate ProvenanceFits(table: seq<Provenance>) {
    Dense(table) && forall k :: 0 <= k < |table| ==> table[k].sources != []
  }

  // ---------- Programs ----------

  ghost predicate RulesFit(p: Program, table: seq<Predicate>, sizes: Sizes) {
    && ClausesHave(p.clauses, key => ClauseFits(key, table, sizes))
    && FactsHave(p.positive, a => FactFits(a, table, sizes)) && FactsHave(p.negative, a => FactFits(a, table, sizes))
    && DisjunctionsHave(p.disjunctions, atoms => DisjunctsFit(atoms, table, sizes))
  }

  ghost predicate RulesCited(p: Program, count: nat) {
    && ClausesCited(p.clauses, count) && FactsCited(p.positive, count) && FactsCited(p.negative, count)
    && DisjunctionsCited(p.disjunctions, count)
  }

  /** A program that refers to nothing it does not have, with every atom as its predicate's sorts say. */
  ghost predicate Formed(p: Program) {
    && DomainsFit(p.domains) && TableFits(p.predicates, p.domains, |p.roles.inverses|) && ProvenanceFits(p.provenance)
    && RulesFit(p, p.predicates, SizesOf(p.domains)) && RulesCited(p, |p.provenance|)
  }

  /** The overlay keeps the permanent predicates, and the permanent symbols of every kind, at the front. */
  ghost predicate Extends(p: Program, q: Program) {
    p.predicates <= q.predicates && forall kind :: ValuesOf(p.domains, kind) <= ValuesOf(q.domains, kind)
  }

  /** Exactly the symbols past the permanent ones are marked as the query's own. */
  ghost predicate LocalMarked(p: Program, q: Program) {
    forall kind, k :: 0 <= k < |ValuesOf(q.domains, kind)| ==>
      (ValuesOf(q.domains, kind)[k].queryLocal <==> k >= |ValuesOf(p.domains, kind)|)
  }

  predicate IsNegative(kind: Kind) {
    kind in {NegatedConcept, NegatedNominal, NegatedObjectRole, NegatedDataRole, NegatedDataRange}
  }

  /** The fact's predicate is negated, or is not, as the list it is kept in says. */
  predicate Sided(a: Atom, table: seq<Predicate>, negative: bool) {
    a.relation < |table| && (IsNegative(table[a.relation].kind) <==> negative)
  }

  /** Positive and negative facts are each in their own list. */
  ghost predicate Partitioned(p: Program) {
    && FactsHave(p.positive, a => Sided(a, p.predicates, false))
    && FactsHave(p.negative, a => Sided(a, p.predicates, true))
  }

  // ---------- What the merge keeps ----------

  /** Whatever is said of each clause, fact and disjunction holds of the merged lists exactly if of both inputs. */
  lemma CombinedHave(
    o: Ontology, query: Option<Program>, clause: ClauseKey -> bool, positive: Atom -> bool, negative: Atom -> bool,
    disjuncts: seq<Atom> -> bool)
    requires Combinable(o, query)
    ensures
      var p, q, c := o.program, query.value, Combined(o, query).program;
      && (ClausesHave(c.clauses, clause) <==> ClausesHave(p.clauses, clause) && ClausesHave(q.clauses, clause))
      && (FactsHave(c.positive, positive) <==> FactsHave(p.positive, positive) && FactsHave(q.positive, positive))
      && (FactsHave(c.negative, negative) <==> FactsHave(p.negative, negative) && FactsHave(q.negative, negative))
      && (DisjunctionsHave(c.disjunctions, disjuncts) <==>
           DisjunctionsHave(p.disjunctions, disjuncts) && DisjunctionsHave(q.disjunctions, disjuncts))
  {
    hide Together, MappingFor, AllKeys, ClausesHave, FactsHave, DisjunctionsHave, EntryClauses, EntryFacts,
      EntryDisjunctions, ClauseEntries, FactEntries, DisjunctionEntries, Resolve;
    var p, q := o.program, query.value;
    var mapping := MappingFor(p, q);
    var clauses := Together(ClauseEntries(p.clauses), ClauseEntries(q.clauses), mapping, OneTrack);
    var positives := Together(FactEntries(p.positive), FactEntries(q.positive), mapping, OneTrack);
    var negatives := Together(FactEntries(p.negative), FactEntries(q.negative), mapping, OneTrack);
    var ds := Together(DisjunctionEntries(p.disjunctions), DisjunctionEntries(q.disjunctions), mapping, DisjunctTracks);
    KeysTogether(ClauseEntries(p.clauses), ClauseEntries(q.clauses), mapping, OneTrack, clause);
    KeysTogether(FactEntries(p.positive), FactEntries(q.positive), mapping, OneTrack, positive);
    KeysTogether(FactEntries(p.negative), FactEntries(q.negative), mapping, OneTrack, negative);
    KeysTogether(DisjunctionEntries(p.disjunctions), DisjunctionEntries(q.disjunctions), mapping, DisjunctTracks,
      disjuncts);
    EntriesRoundTrip(clauses, positives, ds);
    EntriesRoundTrip([], negatives, []);
    HaveKeys(p, clause, positive, negative, disjuncts);
    HaveKeys(q, clause, positive, negative, disjuncts);
    HaveKeys(Combined(o, query).program, clause, positive, negative, disjuncts);
  }

  lemma HaveKeys(
    p: Program, clause: ClauseKey -> bool, positive: Atom -> bool, negative: Atom -> bool, disjuncts: seq<Atom> -> bool)
    ensures AllKeys(ClauseEntries(p.clauses), clause) <==> ClausesHave(p.clauses, clause)
    ensures AllKeys(FactEntries(p.positive), positive) <==> FactsHave(p.positive, positive)
    ensures AllKeys(FactEntries(p.negative), negative) <==> FactsHave(p.negative, negative)
    ensures AllKeys(DisjunctionEntries(p.disjunctions), disjuncts) <==> DisjunctionsHave(p.disjunctions, disjuncts)
  {
    ClauseEntryKeys(p.clauses);
    FactEntryKeys(p.positive);
    FactEntryKeys(p.negative);
    DisjunctionEntryKeys(p.disjunctions);
  }

  lemma ClauseEntryKeys(clauses: seq<Clause>)
    ensures forall k :: 0 <= k < |clauses| ==> ClauseEntries(clauses)[k].key == KeyOf(clauses[k])
  {
  }

  lemma FactEntryKeys(facts: seq<Fact>)
    ensures forall k :: 0 <= k < |facts| ==> FactEntries(facts)[k].key == facts[k].atom
  {
  }

  lemma DisjunctionEntryKeys(ds: seq<Disjunction>)
    ensures forall k :: 0 <= k < |ds| ==> DisjunctionEntries(ds)[k].key == Atoms(ds[k].disjuncts)
  {
  }

  // ---------- Provenance lists ----------

  ghost predicate EntriesCited<K>(entries: seq<Entry<K>>, count: nat) {
    forall k, t :: 0 <= k < |entries| && 0 <= t < |entries[k].tracks| ==> Cited(entries[k].tracks[t], count)
  }

  ghost predicate EntriesUniform<K>(entries: seq<Entry<K>>) {
    forall k, t :: 0 <= k < |entries| && 0 <= t < |entries[k].tracks| ==> entries[k].tracks[t] == entries[k].tracks[0]
  }

  lemma MovedTrack<K>(overlay: seq<Entry<K>>, mapping: map<nat, nat>, k: nat, t: nat)
    requires Resolve(overlay, mapping) && k < |overlay| && t < |overlay[k].tracks|
    ensures |Moved(overlay, mapping)[k].tracks| == |overlay[k].tracks|
    ensures IdsResolve(overlay[k].tracks[t], mapping)
    ensures Ok(Moved(overlay, mapping)[k].tracks[t]) == RemapIds(overlay[k].tracks[t], mapping)
  {
    assert Remap(overlay[k], mapping).Ok?;
    assert RemapTracks(overlay[k].tracks, mapping).Ok?;
  }

  /** A merged list records exactly what was merged into it. */
  lemma RecordedMerged<K(!new)>(list: seq<Entry<K>>, entries: seq<Entry<K>>, shape: K -> nat, key: K, t: nat, v: nat)
    requires IsMerge(list, entries) && Shaped(shape, list) && Shaped(shape, entries)
    ensures Recorded(list, key, t, v) <==> Recorded(entries, key, t, v)
  {
    if Recorded(list, key, t, v) {
      var i :| 0 <= i < |list| && list[i].key == key && t < |list[i].tracks| && v in list[i].tracks[t];
      assert Collects(list[i], entries);
    }
    if Recorded(entries, key, t, v) {
      var j :| 0 <= j < |entries| && entries[j].key == key && t < |entries[j].tracks| && v in entries[j].tracks[t];
      KeyListed(entries, j);
      assert HasKey(list, key);
      var i :| 0 <= i < |list| && list[i].key == key;
      assert Collects(list[i], entries);
    }
  }

  lemma RecordedBoth<K(!new)>(first: seq<Entry<K>>, second: seq<Entry<K>>, key: K, t: nat, v: nat)
    ensures Recorded(first + second, key, t, v) <==> Recorded(first, key, t, v) || Recorded(second, key, t, v)
  {
    var all := first + second;
    assert forall j :: 0 <= j < |first| ==> all[j] == first[j];
    assert forall j :: 0 <= j < |second| ==> all[|first| + j] == second[j];
    assert forall j :: |first| <= j < |all| ==> all[j] == second[j - |first|];
  }

  /** The overlay's number `w` is recorded, and is renumbered to `v`. */
  ghost predicate RecordedAs<K>(overlay: seq<Entry<K>>, mapping: map<nat, nat>, key: K, t: nat, w: nat, v: nat) {
    Recorded(overlay, key, t, w) && w in mapping && mapping[w] == v
  }

  lemma RecordedMoved<K(!new)>(overlay: seq<Entry<K>>, mapping: map<nat, nat>, key: K, t: nat, v: nat)
    requires Resolve(overlay, mapping)
    ensures Recorded(Moved(overlay, mapping), key, t, v) <==> exists w :: RecordedAs(overlay, mapping, key, t, w, v)
  {
    var moved := Moved(overlay, mapping);
    if Recorded(moved, key, t, v) {
      var k :| 0 <= k < |moved| && moved[k].key == key && t < |moved[k].tracks| && v in moved[k].tracks[t];
      MovedTrack(overlay, mapping, k, t);
      var i :| 0 <= i < |moved[k].tracks[t]| && moved[k].tracks[t][i] == v;
      assert overlay[k].tracks[t][i] in overlay[k].tracks[t];
      assert RecordedAs(overlay, mapping, key, t, overlay[k].tracks[t][i], v);
    }
    if w :| RecordedAs(overlay, mapping, key, t, w, v) {
      var k :| 0 <= k < |overlay| && overlay[k].key == key && t < |overlay[k].tracks| && w in overlay[k].tracks[t];
      MovedTrack(overlay, mapping, k, t);
      var i :| 0 <= i < |overlay[k].tracks[t]| && overlay[k].tracks[t][i] == w;
      assert moved[k].tracks[t][i] == v;
    }
  }

  /** What both inputs record is what the merged list records, the overlay's numbers renumbered. */
  lemma RecordedTogether<K(!new)>(
    permanent: seq<Entry<K>>, overlay: seq<Entry<K>>, mapping: map<nat, nat>, shape: K -> nat, key: K, t: nat, v: nat)
    requires Shaped(shape, permanent) && Shaped(shape, overlay) && Resolve(overlay, mapping)
    ensures Recorded(Together(permanent, overlay, mapping, shape), key, t, v) <==>
      Recorded(permanent, key, t, v) || exists w :: RecordedAs(overlay, mapping, key, t, w, v)
  {
    hide Recorded, RecordedAs, IsMerge, MergeAll;
    var moved := Moved(overlay, mapping);
    MergeAllIsMerge(permanent + moved, shape);
    RecordedMerged(Together(permanent, overlay, mapping, shape), permanent + moved, shape, key, t, v);
    RecordedBoth(permanent, moved, key, t, v);
    RecordedMoved(overlay, mapping, key, t, v);
  }

  /** Each track of a merged entry is sorted and holds exactly what is recorded for it. */
  lemma TrackOf<K(!new)>(
    permanent: seq<Entry<K>>, overlay: seq<Entry<K>>, mapping: map<nat, nat>, shape: K -> nat, k: nat, t: nat)
    requires Shaped(shape, permanent) && Shaped(shape, overlay) && Resolve(overlay, mapping)
    requires
      var list := Together(permanent, overlay, mapping, shape);
      k < |list| && t < |list[k].tracks|
    ensures
      var list := Together(permanent, overlay, mapping, shape);
      Rising(list[k].tracks[t]) && forall v :: v in list[k].tracks[t] <==> Recorded(list, list[k].key, t, v)
  {
    var list := Together(permanent, overlay, mapping, shape);
    var entries := permanent + Moved(overlay, mapping);
    MergeAllIsMerge(entries, shape);
    assert Collects(list[k], entries);
    forall v ensures v in list[k].tracks[t] <==> Recorded(list, list[k].key, t, v) {
      RecordedMerged(list, entries, shape, list[k].key, t, v);
    }
  }

  /** Some input has the identity of a merged entry, with as many provenance lists. */
  lemma KeySource<K(!new)>(
    permanent: seq<Entry<K>>, overlay: seq<Entry<K>>, mapping: map<nat, nat>, shape: K -> nat, k: nat)
    requires Shaped(shape, permanent) && Shaped(shape, overlay) && Resolve(overlay, mapping)
    requires k < |Together(permanent, overlay, mapping, shape)|
    ensures
      var e := Together(permanent, overlay, mapping, shape)[k];
      || (exists j :: 0 <= j < |permanent| && permanent[j].key == e.key && |permanent[j].tracks| == |e.tracks|)
      || (exists j :: 0 <= j < |overlay| && overlay[j].key == e.key && |overlay[j].tracks| == |e.tracks|)
  {
    var list := Together(permanent, overlay, mapping, shape);
    var entries := permanent + Moved(overlay, mapping);
    MergeAllIsMerge(entries, shape);
    KeyListed(list, k);
    var j :| 0 <= j < |entries| && entries[j].key == list[k].key;
    if j < |permanent| {
      assert entries[j] == permanent[j];
    } else {
      assert entries[j] == Moved(overlay, mapping)[j - |permanent|];
      assert overlay[j - |permanent|].key == list[k].key;
    }
  }

  lemma CitedRecords<K(!new)>(entries: seq<Entry<K>>, count: nat, key: K, t: nat, v: nat)
    requires EntriesCited(entries, count) && Recorded(entries, key, t, v)
    ensures v < count
  {
    var j :| 0 <= j < |entries| && entries[j].key == key && t < |entries[j].tracks| && v in entries[j].tracks[t];
    assert Cited(entries[j].tracks[t], count);
  }

  lemma FirstRecorded<K(!new)>(entries: seq<Entry<K>>, count: nat, j: nat, t: nat)
    requires EntriesCited(entries, count) && j < |entries| && t < |entries[j].tracks|
    ensures exists v :: Recorded(entries, entries[j].key, t, v)
  {
    assert Cited(entries[j].tracks[t], count);
    assert entries[j].tracks[t][0] in entries[j].tracks[t];
    assert Recorded(entries, entries[j].key, t, entries[j].tracks[t][0]);
  }

  /** Merged provenance is there, in order, and refers to entries of the merged table. */
  lemma TogetherCited<K(!new)>(
    permanent: seq<Entry<K>>, overlay: seq<Entry<K>>, mapping: map<nat, nat>, shape: K -> nat, own: nat, theirs: nat,
    count: nat)
    requires Shaped(shape, permanent) && Shaped(shape, overlay) && Resolve(overlay, mapping)
    requires EntriesCited(permanent, own) && EntriesCited(overlay, theirs) && own <= count
    requires forall w :: w in mapping ==> mapping[w] < count
    ensures EntriesCited(Together(permanent, overlay, mapping, shape), count)
  {
    hide Together, Cited, Resolve, Shaped, EntriesCited, Recorded;
    var list := Together(permanent, overlay, mapping, shape);
    assert forall k, t :: 0 <= k < |list| && 0 <= t < |list[k].tracks| ==> Cited(list[k].tracks[t], count) by {
      forall k, t | 0 <= k < |list| && 0 <= t < |list[k].tracks| ensures Cited(list[k].tracks[t], count) {
        TrackCited(permanent, overlay, mapping, shape, own, theirs, count, k, t);
      }
    }
    assert EntriesCited(list, count) by { AllCited(list, count); }
  }

  lemma AllCited<K>(list: seq<Entry<K>>, count: nat)
    requires forall k, t :: 0 <= k < |list| && 0 <= t < |list[k].tracks| ==> Cited(list[k].tracks[t], count)
    ensures EntriesCited(list, count)
  {
  }

  lemma TrackCited<K(!new)>(
    permanent: seq<Entry<K>>, overlay: seq<Entry<K>>, mapping: map<nat, nat>, shape: K -> nat, own: nat, theirs: nat,
    count: nat, k: nat, t: nat)
    requires Shaped(shape, permanent) && Shaped(shape, overlay) && Resolve(overlay, mapping)
    requires EntriesCited(permanent, own) && EntriesCited(overlay, theirs) && own <= count
    requires forall w :: w in mapping ==> mapping[w] < count
    requires
      var list := Together(permanent, overlay, mapping, shape);
      k < |list| && t < |list[k].tracks|
    ensures Cited(Together(permanent, overlay, mapping, shape)[k].tracks[t], count)
  {
    hide Together, Resolve, Shaped, EntriesCited, Recorded;
    var list := Together(permanent, overlay, mapping, shape);
    var key, track := list[k].key, list[k].tracks[t];
    TrackOf(permanent, overlay, mapping, shape, k, t);
    forall v | v in track ensures v < count {
      RecordedTogether(permanent, overlay, mapping, shape, key, t, v);
      if Recorded(permanent, key, t, v) { CitedRecords(permanent, own, key, t, v); }
    }
    SomethingRecorded(permanent, overlay, mapping, shape, own, theirs, k, t);
    var v :| Recorded(list, key, t, v);
    assert v in track;
    forall i | 0 <= i < |track| ensures track[i] < count {
      assert track[i] in track;
    }
  }

  lemma SomethingRecorded<K(!new)>(
    permanent: seq<Entry<K>>, overlay: seq<Entry<K>>, mapping: map<nat, nat>, shape: K -> nat, own: nat, theirs: nat,
    k: nat, t: nat)
    requires Shaped(shape, permanent) && Shaped(shape, overlay) && Resolve(overlay, mapping)
    requires EntriesCited(permanent, own) && EntriesCited(overlay, theirs)
    requires
      var list := Together(permanent, overlay, mapping, shape);
      k < |list| && t < |list[k].tracks|
    ensures
      var list := Together(permanent, overlay, mapping, shape);
      exists v :: Recorded(list, list[k].key, t, v)
  {
    hide Together, Shaped, EntriesCited, Recorded;
    var list := Together(permanent, overlay, mapping, shape);
    var key := list[k].key;
    KeySource(permanent, overlay, mapping, shape, k);
    if j :| 0 <= j < |permanent| && permanent[j].key == key && |permanent[j].tracks| == |list[k].tracks| {
      FirstRecorded(permanent, own, j, t);
      var v :| Recorded(permanent, key, t, v);
      RecordedTogether(permanent, overlay, mapping, shape, key, t, v);
    } else {
      var j :| 0 <= j < |overlay| && overlay[j].key == key && |overlay[j].tracks| == |list[k].tracks|;
      FirstRecorded(overlay, theirs, j, t);
      var w :| Recorded(overlay, key, t, w);
      RecordedResolves(overlay, mapping, key, t, w);
      assert RecordedAs(overlay, mapping, key, t, w, mapping[w]);
      RecordedTogether(permanent, overlay, mapping, shape, key, t, mapping[w]);
    }
  }

  lemma RecordedResolves<K(!new)>(overlay: seq<Entry<K>>, mapping: map<nat, nat>, key: K, t: nat, w: nat)
    requires Resolve(overlay, mapping) && Recorded(overlay, key, t, w)
    ensures w in mapping
  {
    var j :| 0 <= j < |overlay| && overlay[j].key == key && t < |overlay[j].tracks| && w in overlay[j].tracks[t];
    MovedTrack(overlay, mapping, j, t);
    var i :| 0 <= i < |overlay[j].tracks[t]| && overlay[j].tracks[t][i] == w;
  }

  lemma UniformRecords<K(!new)>(entries: seq<Entry<K>>, shape: K -> nat, key: K, t: nat, v: nat)
    requires EntriesUniform(entries) && Shaped(shape, entries) && t < shape(key)
    ensures Recorded(entries, key, t, v) <==> Recorded(entries, key, 0, v)
  {
    if Recorded(entries, key, t, v) {
      var j :| 0 <= j < |entries| && entries[j].key == key && t < |entries[j].tracks| && v in entries[j].tracks[t];
      assert entries[j].tracks[t] == entries[j].tracks[0];
    }
    if Recorded(entries, key, 0, v) {
      var j :| 0 <= j < |entries| && entries[j].key == key && 0 < |entries[j].tracks| && v in entries[j].tracks[0];
      assert |entries[j].tracks| == shape(key) && entries[j].tracks[t] == entries[j].tracks[0];
    }
  }

  /** Disjuncts that share the provenance of their disjunction still do after the merge. */
  lemma TogetherUniform<K(!new)>(
    permanent: seq<Entry<K>>, overlay: seq<Entry<K>>, mapping: map<nat, nat>, shape: K -> nat)
    requires Shaped(shape, permanent) && Shaped(shape, overlay) && Resolve(overlay, mapping)
    requires EntriesUniform(permanent) && EntriesUniform(overlay)
    ensures EntriesUniform(Together(permanent, overlay, mapping, shape))
  {
    hide Together, Resolve, EntriesUniform, Recorded;
    var list := Together(permanent, overlay, mapping, shape);
    forall k, t | 0 <= k < |list| && 0 <= t < |list[k].tracks| ensures list[k].tracks[t] == list[k].tracks[0] {
      var key := list[k].key;
      TrackOf(permanent, overlay, mapping, shape, k, t);
      TrackOf(permanent, overlay, mapping, shape, k, 0);
      forall v ensures v in list[k].tracks[t] <==> v in list[k].tracks[0] {
        RecordedTogether(permanent, overlay, mapping, shape, key, t, v);
        RecordedTogether(permanent, overlay, mapping, shape, key, 0, v);
        UniformRecords(permanent, shape, key, t, v);
        forall w
          ensures RecordedAs(overlay, mapping, key, t, w, v) <==> RecordedAs(overlay, mapping, key, 0, w, v)
        {
          UniformRecords(overlay, shape, key, t, w);
        }
      }
      RisingUnique(list[k].tracks[t], list[k].tracks[0]);
    }
    AllUniform(list);
  }

  lemma AllUniform<K>(list: seq<Entry<K>>)
    requires forall k, t :: 0 <= k < |list| && 0 <= t < |list[k].tracks| ==> list[k].tracks[t] == list[k].tracks[0]
    ensures EntriesUniform(list)
  {
  }

  // ---------- Provenance is conserved ----------

  /** Number `v` stands for this identity in the table. */
  ghost predicate StandsFor(table: seq<Provenance>, v: nat, identity: Identity) {
    exists i :: 0 <= i < |table| && table[i].id == v && IdentityOf(table[i]) == identity
  }

  /** Some entry with this key cites this identity in its list `t`. */
  ghost predicate Cites<K>(entries: seq<Entry<K>>, table: seq<Provenance>, key: K, t: nat, identity: Identity) {
    exists v :: Recorded(entries, key, t, v) && StandsFor(table, v, identity)
  }

  lemma StandsForItself(table: seq<Provenance>, v: nat, identity: Identity)
    requires Dense(table)
    ensures StandsFor(table, v, identity) <==> v < |table| && IdentityOf(table[v]) == identity
  {
  }

  /** A renumbered number stands for what the overlay's number stood for. */
  lemma RenumberedStandsFor(p: seq<Provenance>, q: seq<Provenance>, w: nat, identity: Identity)
    requires TableMerges(p, q) && Dense(p)
    ensures Covered(Extended(p, q), q)
    ensures w in Mapping(Extended(p, q), q) ==>
      (StandsFor(Extended(p, q), Mapping(Extended(p, q), q)[w], identity) <==> StandsFor(q, w, identity))
  {
    var table := Extended(p, q);
    ExtendedTable(p, q);
    ExtendedDense(p, q);
    MappingKeys(table, q, w);
    if w in Mapping(table, q) {
      var k :| 0 <= k < |q| && q[k].id == w;
      MappingOf(table, q, k);
      var i :| 0 <= i < |table| && IdentityOf(table[i]) == IdentityOf(q[k]) && table[i].id == Mapping(table, q)[w];
      StandsForItself(table, i, identity);
      assert forall j :: 0 <= j < |q| && q[j].id == w ==> j == k;
    }
  }

  /** The merged list cites exactly the identities that either input cites for the same key, each by its own table. */
  lemma TogetherCites<K(!new)>(
    permanent: seq<Entry<K>>, overlay: seq<Entry<K>>, p: seq<Provenance>, q: seq<Provenance>, shape: K -> nat, key: K,
    t: nat, identity: Identity)
    requires Shaped(shape, permanent) && Shaped(shape, overlay) && TableMerges(p, q) && Dense(p)
    requires Covered(Extended(p, q), q) && Resolve(overlay, Mapping(Extended(p, q), q))
    requires EntriesCited(permanent, |p|)
    ensures
      var list := Together(permanent, overlay, Mapping(Extended(p, q), q), shape);
      Cites(list, Extended(p, q), key, t, identity) <==>
        Cites(permanent, p, key, t, identity) || Cites(overlay, q, key, t, identity)
  {
    hide Together, Recorded, Mapping, Extended, Shaped, Resolve, StandsFor, Covered;
    var table := Extended(p, q);
    var mapping := Mapping(table, q);
    var list := Together(permanent, overlay, mapping, shape);
    ExtendedTable(p, q);
    ExtendedDense(p, q);
    if v :| Recorded(list, key, t, v) && StandsFor(table, v, identity) {
      RecordedTogether(permanent, overlay, mapping, shape, key, t, v);
      if Recorded(permanent, key, t, v) {
        CitedRecords(permanent, |p|, key, t, v);
        StandsForItself(table, v, identity);
        StandsForItself(p, v, identity);
      } else {
        var w :| RecordedAs(overlay, mapping, key, t, w, v);
        RenumberedStandsFor(p, q, w, identity);
      }
    }
    if v :| Recorded(permanent, key, t, v) && StandsFor(p, v, identity) {
      RecordedTogether(permanent, overlay, mapping, shape, key, t, v);
      StandsForItself(table, v, identity);
      StandsForItself(p, v, identity);
    }
    if w :| Recorded(overlay, key, t, w) && StandsFor(q, w, identity) {
      RecordedResolves(overlay, mapping, key, t, w);
      RenumberedStandsFor(p, q, w, identity);
      assert RecordedAs(overlay, mapping, key, t, w, mapping[w]);
      RecordedTogether(permanent, overlay, mapping, shape, key, t, mapping[w]);
    }
  }

  lemma EntriesAreCited(p: Program, count: nat)
    requires RulesCited(p, count)
    ensures EntriesCited(ClauseEntries(p.clauses), count)
    ensures EntriesCited(FactEntries(p.positive), count) && EntriesCited(FactEntries(p.negative), count)
    ensures EntriesCited(DisjunctionEntries(p.disjunctions), count) &&
      EntriesUniform(DisjunctionEntries(p.disjunctions))
  {
    forall k | 0 <= k < |p.disjunctions|
      ensures
        var e := DisjunctionEntry(p.disjunctions[k]);
        forall t :: 0 <= t < |e.tracks| ==> e.tracks[t] == p.disjunctions[k].provenance
    {
      assert OneProvenance(p.disjunctions[k]);
    }
  }

  lemma CitedEntries(clauses: seq<Clause>, facts: seq<Fact>, ds: seq<Disjunction>, count: nat)
    ensures EntriesCited(ClauseEntries(clauses), count) && (forall k :: 0 <= k < |clauses| ==> clauses[k].id == k) ==>
      ClausesCited(clauses, count)
    ensures EntriesCited(FactEntries(facts), count) ==> FactsCited(facts, count)
    ensures
      && EntriesCited(DisjunctionEntries(ds), count) && EntriesUniform(DisjunctionEntries(ds))
      && (forall k :: 0 <= k < |ds| ==> ds[k].id == k)
      ==> DisjunctionsCited(ds, count)
  {
    forall k | 0 <= k < |clauses| ensures ClauseEntries(clauses)[k].tracks[0] == clauses[k].provenance {
    }
    forall k | 0 <= k < |facts| ensures FactEntries(facts)[k].tracks[0] == facts[k].provenance {
    }
    if EntriesUniform(DisjunctionEntries(ds)) {
      forall k | 0 <= k < |ds| ensures OneProvenance(ds[k]) {
        var e := DisjunctionEntries(ds)[k];
        assert e == DisjunctionEntry(ds[k]) && e.tracks[0] == ds[k].provenance;
        forall t | 0 <= t < |ds[k].disjuncts| ensures ds[k].disjuncts[t].provenance == ds[k].provenance {
          assert e.tracks[t + 1] == e.tracks[0];
        }
      }
      forall k | 0 <= k < |ds| ensures DisjunctionEntries(ds)[k].tracks[0] == ds[k].provenance {
      }
    }
  }

  lemma MappingBelow(p: seq<Provenance>, q: seq<Provenance>, w: nat)
    requires TableMerges(p, q) && Dense(p)
    ensures Covered(Extended(p, q), q)
    ensures w in Mapping(Extended(p, q), q) ==> Mapping(Extended(p, q), q)[w] < |Extended(p, q)|
  {
    ExtendedTable(p, q);
    ExtendedDense(p, q);
    MappingKeys(Extended(p, q), q, w);
    if w in Mapping(Extended(p, q), q) {
      var k :| 0 <= k < |q| && q[k].id == w;
      MappingOf(Extended(p, q), q, k);
    }
  }

  /**
   The list cites, for every key, exactly the sources that either input cites for it, each read by its own
   provenance table.
   */
  ghost predicate Conserves<K(!new)>(
    list: seq<Entry<K>>, table: seq<Provenance>, permanent: seq<Entry<K>>, p: seq<Provenance>,
    overlay: seq<Entry<K>>, q: seq<Provenance>)
  {
    forall key, t, identity :: Cites(list, table, key, t, identity) <==>
      Cites(permanent, p, key, t, identity) || Cites(overlay, q, key, t, identity)
  }

  lemma TogetherConserves<K(!new)>(
    permanent: seq<Entry<K>>, overlay: seq<Entry<K>>, p: seq<Provenance>, q: seq<Provenance>, shape: K -> nat)
    requires Shaped(shape, permanent) && Shaped(shape, overlay) && TableMerges(p, q) && Dense(p)
    requires Covered(Extended(p, q), q) && Resolve(overlay, Mapping(Extended(p, q), q))
    requires EntriesCited(permanent, |p|)
    ensures
      var list := Together(permanent, overlay, Mapping(Extended(p, q), q), shape);
      Conserves(list, Extended(p, q), permanent, p, overlay, q)
  {
    hide Together, Cites, EntriesCited, Dense, TableMerges, Extended, Mapping, Resolve, Shaped, Covered;
    var list := Together(permanent, overlay, Mapping(Extended(p, q), q), shape);
    forall key, t: nat, identity
      ensures Cites(list, Extended(p, q), key, t, identity) <==>
        Cites(permanent, p, key, t, identity) || Cites(overlay, q, key, t, identity)
    {
      TogetherCites(permanent, overlay, p, q, shape, key, t, identity);
    }
  }

  /** No clause, fact or disjunction of the combined program gains or loses a source. */
  lemma ProvenanceConserved(o: Ontology, query: Option<Program>)
    requires Combinable(o, query) && Dense(o.program.provenance) && RulesCited(o.program, |o.program.provenance|)
    ensures
      var p, q, c := o.program, query.value, Combined(o, query).program;
      && Conserves(ClauseEntries(c.clauses), c.provenance, ClauseEntries(p.clauses), p.provenance,
           ClauseEntries(q.clauses), q.provenance)
      && Conserves(FactEntries(c.positive), c.provenance, FactEntries(p.positive), p.provenance,
           FactEntries(q.positive), q.provenance)
      && Conserves(FactEntries(c.negative), c.provenance, FactEntries(p.negative), p.provenance,
           FactEntries(q.negative), q.provenance)
      && Conserves(DisjunctionEntries(c.disjunctions), c.provenance, DisjunctionEntries(p.disjunctions), p.provenance,
           DisjunctionEntries(q.disjunctions), q.provenance)
  {
    hide Together, Conserves, EntriesCited, RulesCited, Dense, TableMerges, Extended, Mapping, Resolve, ClauseEntries,
      FactEntries, DisjunctionEntries, EntryClauses, EntryFacts, EntryDisjunctions;
    var p, q := o.program, query.value;
    var mapping := MappingFor(p, q);
    ExtendedTableMerges(p.provenance, q.provenance);
    EntriesAreCited(p, |p.provenance|);
    EntriesRoundTrip(
      Together(ClauseEntries(p.clauses), ClauseEntries(q.clauses), mapping, OneTrack),
      Together(FactEntries(p.positive), FactEntries(q.positive), mapping, OneTrack),
      Together(DisjunctionEntries(p.disjunctions), DisjunctionEntries(q.disjunctions), mapping, DisjunctTracks));
    EntriesRoundTrip([], Together(FactEntries(p.negative), FactEntries(q.negative), mapping, OneTrack), []);
    TogetherConserves(ClauseEntries(p.clauses), ClauseEntries(q.clauses), p.provenance, q.provenance, OneTrack);
    TogetherConserves(FactEntries(p.positive), FactEntries(q.positive), p.provenance, q.provenance, OneTrack);
    TogetherConserves(FactEntries(p.negative), FactEntries(q.negative), p.provenance, q.provenance, OneTrack);
    TogetherConserves(DisjunctionEntries(p.disjunctions), DisjunctionEntries(q.disjunctions), p.provenance,
      q.provenance, DisjunctTracks);
  }

  lemma ExtendedTableMerges(p: seq<Provenance>, q: seq<Provenance>)
    requires TableMerges(p, q)
    ensures Covered(Extended(p, q), q)
  {
    ExtendedTable(p, q);
  }

  // ---------- The merge is closed ----------

  lemma CountLonger(p: Program, q: Program, kind: SymbolKind)
    requires Extends(p, q)
    ensures Count(p.domains, kind) <= Count(q.domains, kind)
  {
    assert ValuesOf(p.domains, kind) <= ValuesOf(q.domains, kind);
  }

  lemma SizesLonger(p: Program, q: Program)
    requires Extends(p, q)
    ensures NoLarger(SizesOf(p.domains), SizesOf(q.domains))
  {
    CountLonger(p, q, IndividualSymbol);
    CountLonger(p, q, SourceLiteral);
    CountLonger(p, q, DataValue);
  }

  lemma RulesFitLonger(p: Program, table: seq<Predicate>, sizes: Sizes, longer: seq<Predicate>, larger: Sizes)
    requires RulesFit(p, table, sizes) && table <= longer && NoLarger(sizes, larger)
    ensures RulesFit(p, longer, larger)
  {
    hide AtomsFit, NoLarger;
    forall k | 0 <= k < |p.clauses| ensures ClauseFits(KeyOf(p.clauses[k]), longer, larger) {
      assert ClauseFits(KeyOf(p.clauses[k]), table, sizes);
      AtomsFitLonger(p.clauses[k].body, table, sizes, longer, larger, false);
      AtomsFitLonger(p.clauses[k].head, table, sizes, longer, larger, false);
    }
    forall k | 0 <= k < |p.positive| ensures FactFits(p.positive[k].atom, longer, larger) {
      FactFitsLonger(p.positive[k].atom, table, sizes, longer, larger);
    }
    forall k | 0 <= k < |p.negative| ensures FactFits(p.negative[k].atom, longer, larger) {
      FactFitsLonger(p.negative[k].atom, table, sizes, longer, larger);
    }
    forall k | 0 <= k < |p.disjunctions| ensures DisjunctsFit(Atoms(p.disjunctions[k].disjuncts), longer, larger) {
      assert DisjunctsFit(Atoms(p.disjunctions[k].disjuncts), table, sizes);
      AtomsFitLonger(Atoms(p.disjunctions[k].disjuncts), table, sizes, longer, larger, true);
    }
  }

  lemma FactFitsLonger(a: Atom, table: seq<Predicate>, sizes: Sizes, longer: seq<Predicate>, larger: Sizes)
    requires FactFits(a, table, sizes) && table <= longer && NoLarger(sizes, larger)
    ensures FactFits(a, longer, larger)
  {
    AtomsFitLonger([a], table, sizes, longer, larger, true);
    assert AtomFits([a][0], longer, larger, true);
  }

  /** The merged rules fit a table and sizes exactly when the rules of both inputs do. */
  lemma CombinedRulesFit(o: Ontology, query: Option<Program>, table: seq<Predicate>, sizes: Sizes)
    requires Combinable(o, query)
    ensures RulesFit(Combined(o, query).program, table, sizes) <==>
      RulesFit(o.program, table, sizes) && RulesFit(query.value, table, sizes)
  {
    hide Combined, Combinable, ClauseFits, FactFits, DisjunctsFit;
    CombinedHave(o, query, key => ClauseFits(key, table, sizes), a => FactFits(a, table, sizes),
      a => FactFits(a, table, sizes), atoms => DisjunctsFit(atoms, table, sizes));
  }

  lemma CombinedRulesCited(o: Ontology, query: Option<Program>)
    requires Combinable(o, query) && Dense(o.program.provenance)
    requires RulesCited(o.program, |o.program.provenance|) && RulesCited(query.value, |query.value.provenance|)
    ensures RulesCited(Combined(o, query).program, |Combined(o, query).program.provenance|)
  {
    hide Together, EntriesCited, EntriesUniform, RulesCited, Dense, TableMerges, Extended, Mapping, Resolve,
      ClauseEntries, FactEntries, DisjunctionEntries;
    var p, q, c := o.program, query.value, Combined(o, query).program;
    var mapping, own, theirs, count := MappingFor(p, q), |p.provenance|, |q.provenance|, |c.provenance|;
    ExtendedTableMerges(p.provenance, q.provenance);
    assert own <= count by { ExtendedLonger(p.provenance, q.provenance); }
    forall w | w in mapping ensures mapping[w] < count {
      MappingBelow(p.provenance, q.provenance, w);
    }
    EntriesAreCited(p, own);
    EntriesAreCited(q, theirs);
    var clauses := Together(ClauseEntries(p.clauses), ClauseEntries(q.clauses), mapping, OneTrack);
    var positive := Together(FactEntries(p.positive), FactEntries(q.positive), mapping, OneTrack);
    var negative := Together(FactEntries(p.negative), FactEntries(q.negative), mapping, OneTrack);
    var ds := Together(DisjunctionEntries(p.disjunctions), DisjunctionEntries(q.disjunctions), mapping, DisjunctTracks);
    TogetherCited(ClauseEntries(p.clauses), ClauseEntries(q.clauses), mapping, OneTrack, own, theirs, count);
    TogetherCited(FactEntries(p.positive), FactEntries(q.positive), mapping, OneTrack, own, theirs, count);
    TogetherCited(FactEntries(p.negative), FactEntries(q.negative), mapping, OneTrack, own, theirs, count);
    TogetherCited(DisjunctionEntries(p.disjunctions), DisjunctionEntries(q.disjunctions), mapping, DisjunctTracks,
      own, theirs, count);
    TogetherUniform(DisjunctionEntries(p.disjunctions), DisjunctionEntries(q.disjunctions), mapping, DisjunctTracks);
    EntriesRoundTrip(clauses, positive, ds);
    EntriesRoundTrip([], negative, []);
    CitedEntries(c.clauses, c.positive, c.disjunctions, count);
    CitedEntries([], c.negative, [], count);
    assert RulesCited(c, count) by { AllRulesCited(c, count); }
  }

  lemma AllRulesCited(p: Program, count: nat)
    requires ClausesCited(p.clauses, count) && FactsCited(p.positive, count) && FactsCited(p.negative, count)
    requires DisjunctionsCited(p.disjunctions, count)
    ensures RulesCited(p, count)
  {
  }

  lemma ExtendedLonger(p: seq<Provenance>, q: seq<Provenance>)
    requires TableMerges(p, q)
    ensures p <= Extended(p, q)
  {
    ExtendedTable(p, q);
  }

  lemma ExtendedFits(p: seq<Provenance>, q: seq<Provenance>)
    requires TableMerges(p, q) && ProvenanceFits(p) && ProvenanceFits(q)
    ensures ProvenanceFits(Extended(p, q))
  {
    var table := Extended(p, q);
    ExtendedTable(p, q);
    ExtendedDense(p, q);
    forall k | 0 <= k < |table| ensures table[k].sources != [] {
      if k < |p| {
        assert table[k] == p[k];
      } else {
        assert Known(q, IdentityOf(table[k]));
        assert IdentityOf(q[Place(q, IdentityOf(table[k]))]) == IdentityOf(table[k]);
      }
    }
  }

  /**
   Merging is closed: when the ontology and the overlay are each well formed by their own tables and domains
   and the overlay extends the ontology, the combined program is well formed and extends both.
   */
  lemma CombinedFormed(o: Ontology, query: Option<Program>)
    requires Combinable(o, query) && Formed(o.program) && Formed(query.value) && Extends(o.program, query.value)
    ensures
      var c := Combined(o, query).program;
      Formed(c) && Extends(o.program, c) && Extends(query.value, c)
  {
    hide RulesFit, RulesCited, TableFits, DomainsFit, Together, MappingFor, Extended, ProvenanceFits, SizesOf;
    var p, q, c := o.program, query.value, Combined(o, query).program;
    assert c.domains == q.domains && c.predicates == q.predicates && c.roles == q.roles;
    SizesLonger(p, q);
    RulesFitLonger(p, p.predicates, SizesOf(p.domains), q.predicates, SizesOf(q.domains));
    CombinedRulesFit(o, query, q.predicates, SizesOf(q.domains));
    assert Dense(p.provenance) by { FitsDense(p.provenance); }
    CombinedRulesCited(o, query);
    ExtendedFits(p.provenance, q.provenance);
  }

  lemma FitsDense(table: seq<Provenance>)
    requires ProvenanceFits(table)
    ensures Dense(table)
  {
  }

  // ---------- References alone ----------

  predicate ClauseKeyWithin(key: ClauseKey, predicates: nat, individuals: nat) {
    AtomsWithin(key.0, predicates, individuals) && AtomsWithin(key.1, predicates, individuals)
  }

  lemma WithinHave(p: Program, predicates: nat, individuals: nat)
    ensures ProgramWithin(p, predicates, individuals) <==>
      && ClausesHave(p.clauses, key => ClauseKeyWithin(key, predicates, individuals))
      && FactsHave(p.positive, a => AtomWithin(a, predicates, individuals))
      && FactsHave(p.negative, a => AtomWithin(a, predicates, individuals))
      && DisjunctionsHave(p.disjunctions, atoms => AtomsWithin(atoms, predicates, individuals))
  {
    hide AtomWithin;
    assert ClausesHave(p.clauses, key => ClauseKeyWithin(key, predicates, individuals)) <==>
      forall k :: 0 <= k < |p.clauses| ==> ClauseWithin(p.clauses[k], predicates, individuals) by {
      forall k | 0 <= k < |p.clauses|
        ensures ClauseKeyWithin(KeyOf(p.clauses[k]), predicates, individuals) <==>
          ClauseWithin(p.clauses[k], predicates, individuals)
      {
      }
    }
    FactsWithin(p.positive, predicates, individuals);
    FactsWithin(p.negative, predicates, individuals);
  }

  lemma FactsWithin(facts: seq<Fact>, predicates: nat, individuals: nat)
    ensures AtomsWithin(Atoms(facts), predicates, individuals) <==>
      FactsHave(facts, a => AtomWithin(a, predicates, individuals))
  {
    hide AtomWithin;
    forall k | 0 <= k < |facts|
      ensures AtomWithin(Atoms(facts)[k], predicates, individuals) <==>
        AtomWithin(facts[k].atom, predicates, individuals)
    {
    }
  }

  lemma AtomsWithinMore(atoms: seq<Atom>, predicates: nat, individuals: nat, more: nat, others: nat)
    requires AtomsWithin(atoms, predicates, individuals) && predicates <= more && individuals <= others
    ensures AtomsWithin(atoms, more, others)
  {
    forall k | 0 <= k < |atoms| ensures AtomWithin(atoms[k], more, others) {
      assert AtomWithin(atoms[k], predicates, individuals);
      forall t | 0 <= t < |atoms[k].arguments| ensures TermWithin(atoms[k].arguments[t], others) {
        assert TermWithin(atoms[k].arguments[t], individuals);
      }
    }
  }

  lemma WithinMore(p: Program, predicates: nat, individuals: nat, more: nat, others: nat)
    requires ProgramWithin(p, predicates, individuals) && predicates <= more && individuals <= others
    ensures ProgramWithin(p, more, others)
  {
    hide AtomsWithin;
    forall k | 0 <= k < |p.clauses| ensures ClauseWithin(p.clauses[k], more, others) {
      assert ClauseWithin(p.clauses[k], predicates, individuals);
      AtomsWithinMore(p.clauses[k].body, predicates, individuals, more, others);
      AtomsWithinMore(p.clauses[k].head, predicates, individuals, more, others);
    }
    AtomsWithinMore(Atoms(p.positive), predicates, individuals, more, others);
    AtomsWithinMore(Atoms(p.negative), predicates, individuals, more, others);
    forall k | 0 <= k < |p.disjunctions| ensures AtomsWithin(Atoms(p.disjunctions[k].disjuncts), more, others) {
      AtomsWithinMore(Atoms(p.disjunctions[k].disjuncts), predicates, individuals, more, others);
    }
  }

  /** The merged program refers only to what both inputs refer to. */
  lemma CombinedRefers(o: Ontology, query: Option<Program>, predicates: nat, individuals: nat)
    requires Combinable(o, query)
    ensures ProgramWithin(Combined(o, query).program, predicates, individuals) <==>
      ProgramWithin(o.program, predicates, individuals) && ProgramWithin(query.value, predicates, individuals)
  {
    hide Combined, ProgramWithin, ClauseKeyWithin, AtomWithin, AtomsWithin;
    CombinedHave(o, query, key => ClauseKeyWithin(key, predicates, individuals),
      a => AtomWithin(a, predicates, individuals), a => AtomWithin(a, predicates, individuals),
      atoms => AtomsWithin(atoms, predicates, individuals));
    WithinHave(o.program, predicates, individuals);
    WithinHave(query.value, predicates, individuals);
    WithinHave(Combined(o, query).program, predicates, individuals);
  }

  /**
   References stay within the combined program's own table and individuals, for any two inputs that stay
   within theirs; the permanent symbols of every kind come first in the combined domains.
   */
  lemma CombinedWithin(o: Ontology, query: Option<Program>)
    requires Combinable(o, query) && Extends(o.program, query.value)
    requires ProgramWithin(o.program, |o.program.predicates|, Count(o.program.domains, IndividualSymbol))
    requires ProgramWithin(query.value, |query.value.predicates|, Count(query.value.domains, IndividualSymbol))
    ensures
      var c := Combined(o, query).program;
      && ProgramWithin(c, |c.predicates|, Count(c.domains, IndividualSymbol))
      && forall kind :: ValuesOf(o.program.domains, kind) <= ValuesOf(c.domains, kind)
  {
    hide ProgramWithin, Count, ValuesOf;
    var p, q := o.program, query.value;
    CountLonger(p, q, IndividualSymbol);
    WithinMore(p, |p.predicates|, Count(p.domains, IndividualSymbol), |q.predicates|,
      Count(q.domains, IndividualSymbol));
    CombinedRefers(o, query, |q.predicates|, Count(q.domains, IndividualSymbol));
  }

  /** A well-formed program refers to nothing outside its table and its individuals. */
  lemma FormedWithin(p: Program)
    requires Formed(p)
    ensures ProgramWithin(p, |p.predicates|, Count(p.domains, IndividualSymbol))
  {
    hide AtomsFit, Count, AtomFits, AtomsWithin, AtomWithin, TableFits, DomainsFit, RulesCited, ProvenanceFits;
    var table, sizes := p.predicates, SizesOf(p.domains);
    forall k | 0 <= k < |p.clauses| ensures ClauseWithin(p.clauses[k], |table|, sizes.individuals) {
      assert ClauseFits(KeyOf(p.clauses[k]), table, sizes);
      FitsWithin(p.clauses[k].body, table, sizes, false);
      FitsWithin(p.clauses[k].head, table, sizes, false);
    }
    FactsFitWithin(p.positive, table, sizes);
    FactsFitWithin(p.negative, table, sizes);
    forall k | 0 <= k < |p.disjunctions|
      ensures AtomsWithin(Atoms(p.disjunctions[k].disjuncts), |table|, sizes.individuals)
    {
      assert DisjunctsFit(Atoms(p.disjunctions[k].disjuncts), table, sizes);
      FitsWithin(Atoms(p.disjunctions[k].disjuncts), table, sizes, true);
    }
  }

  lemma FitsWithin(atoms: seq<Atom>, table: seq<Predicate>, sizes: Sizes, ground: bool)
    requires AtomsFit(atoms, table, sizes, ground)
    ensures AtomsWithin(atoms, |table|, sizes.individuals)
  {
    forall k | 0 <= k < |atoms| ensures AtomWithin(atoms[k], |table|, sizes.individuals) {
      assert AtomFits(atoms[k], table, sizes, ground);
    }
  }

  lemma FactsFitWithin(facts: seq<Fact>, table: seq<Predicate>, sizes: Sizes)
    requires FactsHave(facts, a => FactFits(a, table, sizes))
    ensures AtomsWithin(Atoms(facts), |table|, sizes.individuals)
  {
    forall k | 0 <= k < |facts| ensures AtomFits(Atoms(facts)[k], table, sizes, true) {
      assert FactFits(facts[k].atom, table, sizes);
    }
    FitsWithin(Atoms(facts), table, sizes, true);
  }

  /** Named individuals: sorted, and each an individual there is. */
  lemma CombinedNamed(o: Ontology, query: Option<Program>)
    requires Combinable(o, query) && Formed(o.program) && Formed(query.value) && Extends(o.program, query.value)
    requires forall v :: v in o.named ==> v < Count(o.program.domains, IndividualSymbol)
    ensures
      var c := Combined(o, query);
      Rising(c.named) && forall v :: v in c.named ==> v < Count(c.program.domains, IndividualSymbol)
  {
    hide RulesFit, RulesCited, TableFits, DomainsFit, Together, MappingFor, Extended, ProvenanceFits, Count;
    var c := Combined(o, query);
    var extra := NamedIn(query.value.predicates, c.program.positive);
    CombinedFormed(o, query);
    CountLonger(o.program, query.value, IndividualSymbol);
    UnionKeeps([], o.named + extra);
    forall v | v in extra ensures v < Count(c.program.domains, IndividualSymbol) {
      var k :| 0 <= k < |c.program.positive| && Combination.Names(query.value.predicates, c.program.positive[k], v);
      FactNumbers(c.program, k);
    }
  }

  lemma FactNumbers(p: Program, k: nat)
    requires RulesFit(p, p.predicates, SizesOf(p.domains)) && k < |p.positive|
    ensures
      var ts := p.positive[k].atom.arguments;
      forall t :: 0 <= t < |ts| && ts[t].Individual? ==> ts[t].individual < Count(p.domains, IndividualSymbol)
  {
    assert FactFits(p.positive[k].atom, p.predicates, SizesOf(p.domains));
  }
}
