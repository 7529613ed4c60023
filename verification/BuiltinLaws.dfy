/**
 The built-in clauses of compiled programs are laws: in the standard meaning of roles, data ranges,
 equality and nominals each of them is true however the classes are interpreted. A clause that only
 carries built-in provenance need not be.
 */
module BuiltinLaws {
  import opened Bytes
  import opened Programs
  import opened Counterexample
  import opened FastPath

  // ---------- The standard meaning of predicates ----------

  /** What the setting fixes beside the classes: which roles are full, the others being empty, and the data ranges. */
  datatype Standards<!D, !V> = Standards(
    full: set<nat>, fullData: set<nat>, range: (Option<nat>, seq<Value<D, V>>) -> bool, names: nat -> D,
    literals: (nat, nat) -> V)

  predicate Constrained(kind: Kind) {
    match kind
    case Nominal | NegatedNominal | DataRole | NegatedDataRole | DataRange | NegatedDataRange | Equality | Inequality =>
      true
    case _ => false
  }

  ghost predicate Same<D, V>(values: seq<Value<D, V>>) {
    |values| == 2 && values[0] == values[1]
  }

  ghost predicate Listed<D, V>(s: Standards<D, V>, individuals: seq<nat>, values: seq<Value<D, V>>) {
    |values| == 1 && exists k :: 0 <= k < |individuals| && values[0] == Element(s.names(individuals[k]))
  }

  ghost predicate FullData<D, V>(s: Standards<D, V>, role: Option<nat>) {
    role.Some? && role.value in s.fullData
  }

  ghost predicate Meaning<D, V>(s: Standards<D, V>, p: Predicate, values: seq<Value<D, V>>) {
    match p.kind
    case Nominal => Listed(s, p.annotation, values)
    case NegatedNominal => !Listed(s, p.annotation, values)
    case DataRole => FullData(s, p.role)
    case NegatedDataRole => !FullData(s, p.role)
    case DataRange => s.range(p.symbol, values)
    case NegatedDataRange => !s.range(p.symbol, values)
    case Equality => Same(values)
    case Inequality => !Same(values)
    case _ => false
  }

  ghost predicate Standard<D(!new), V(!new)>(i: Interp<D, V>, s: Standards<D, V>) {
    && i.individual == s.names
    && (forall r, d, e :: i.role(r, d, e) <==> r in s.full)
    && (forall p: Predicate, values :: Constrained(p.kind) ==> (i.other(p, values) <==> Meaning(s, p, values)))
  }

  ghost function StandardSetting<D(!new), V(!new)>(s: Standards<D, V>): (i: Interp<D, V>)
    ensures Standard(i, s)
  {
    Interp(
      s.names, s.literals, (_: nat, _: D) => false, (r: nat, _: D, _: D) => r in s.full,
      (p: Predicate, values: seq<Value<D, V>>) => Meaning(s, p, values))
  }

  // ---------- Atoms ----------

  predicate ObjectTerm(t: Term) {
    t.Individual? || (t.Variable? && t.sort == Object)
  }

  predicate ObjectTerms(ts: seq<Term>, n: nat) {
    |ts| == n && forall k :: 0 <= k < n ==> ObjectTerm(ts[k])
  }

  predicate KindAt(table: seq<Predicate>, a: Atom, kind: Kind) {
    a.relation < |table| && table[a.relation].kind == kind
  }

  predicate RoleAtom(table: seq<Predicate>, a: Atom) {
    KindAt(table, a, ObjectRole) && table[a.relation].role.Some? && ObjectTerms(a.arguments, 2)
  }

  predicate FullAtom(table: seq<Predicate>, full: set<nat>, a: Atom) {
    RoleAtom(table, a) && table[a.relation].role.value in full
  }

  predicate FullDataAtom(table: seq<Predicate>, full: set<nat>, a: Atom) {
    KindAt(table, a, DataRole) && table[a.relation].role.Some? && table[a.relation].role.value in full
  }

  /** A predicate and its complement applied to the same terms. */
  predicate Complements(table: seq<Predicate>, a: Atom, b: Atom) {
    && a.relation < |table| && b.relation < |table| && a.arguments == b.arguments
    && var p, n := table[a.relation], table[b.relation];
    && p.symbol == n.symbol && p.role == n.role
    && match p.kind
       case Concept => n.kind == NegatedConcept && p.symbol.Some? && ObjectTerms(a.arguments, 1)
       case ObjectRole => n.kind == NegatedObjectRole && p.role.Some? && ObjectTerms(a.arguments, 2)
       case Nominal => n.kind == NegatedNominal && p.annotation == n.annotation
       case DataRole => n.kind == NegatedDataRole
       case DataRange => n.kind == NegatedDataRange
       case _ => false
  }

  // ---------- What the compiler emits ----------

  /** An inverse pair, a built-in inclusion or a built-in chain; full roles are only below full ones. */
  predicate RoleInclusion(table: seq<Predicate>, full: set<nat>, c: Clause) {
    && |c.body| >= 1 && |c.head| == 1
    && (forall k :: 0 <= k < |c.body| ==> RoleAtom(table, c.body[k]))
    && RoleAtom(table, c.head[0])
    && ((forall k :: 0 <= k < |c.body| ==> FullAtom(table, full, c.body[k])) ==> FullAtom(table, full, c.head[0]))
  }

  /** A data property below another. */
  predicate DataInclusion(table: seq<Predicate>, full: set<nat>, c: Clause) {
    && |c.body| == 1 && |c.head| == 1 && KindAt(table, c.body[0], DataRole) && KindAt(table, c.head[0], DataRole)
    && (FullDataAtom(table, full, c.body[0]) ==> FullDataAtom(table, full, c.head[0]))
  }

  /** The bottom class, object property and data property are empty. */
  predicate EmptyBottom(table: seq<Predicate>, bottom: nat, full: set<nat>, fullData: set<nat>, c: Clause) {
    && |c.body| == 1 && c.head == []
    && (|| (KindAt(table, c.body[0], Concept) && table[c.body[0].relation].symbol == Some(bottom))
        || (RoleAtom(table, c.body[0]) && !FullAtom(table, full, c.body[0]))
        || (KindAt(table, c.body[0], DataRole) && !FullDataAtom(table, fullData, c.body[0])))
  }

  /** A predicate and its complement have nothing in common. */
  predicate Exclusion(table: seq<Predicate>, c: Clause) {
    |c.body| == 2 && c.head == [] && Complements(table, c.body[0], c.body[1])
  }

  /** A predicate and its complement leave nothing out. */
  predicate Cover(table: seq<Predicate>, c: Clause) {
    |c.head| == 2 && Complements(table, c.head[0], c.head[1])
  }

  function ObjectVariable(): Term {
    Variable(0, Object)
  }

  /** Whatever is in a nominal equals one of its members. */
  predicate NominalOnly(table: seq<Predicate>, c: Clause) {
    && |c.body| == 1 && KindAt(table, c.body[0], Nominal) && c.body[0].arguments == [ObjectVariable()]
    && var members := table[c.body[0].relation].annotation;
    && |c.head| == |members|
    && forall k :: 0 <= k < |members| ==>
      KindAt(table, c.head[k], Equality) && c.head[k].arguments == [ObjectVariable(), Individual(members[k])]
  }

  predicate MemberOf(table: seq<Predicate>, nominal: Atom, relation: Atom) {
    && nominal.relation < |table| && nominal.arguments == [ObjectVariable()]
    && var members := table[nominal.relation].annotation;
    exists k :: 0 <= k < |members| && relation.arguments == [ObjectVariable(), Individual(members[k])]
  }

  /** Whatever equals a member is in the nominal, and what is in the complement equals none. */
  predicate NominalMember(table: seq<Predicate>, c: Clause) {
    && |c.body| == 1 && |c.head| == 1
    && (|| (KindAt(table, c.body[0], Equality) && KindAt(table, c.head[0], Nominal) &&
       MemberOf(table, c.head[0], c.body[0]))
        || (KindAt(table, c.body[0], NegatedNominal) && KindAt(table, c.head[0], Inequality) &&
           MemberOf(table, c.body[0], c.head[0])))
  }

  /** The clauses compiled with built-in provenance. */
  predicate Compiled(table: seq<Predicate>, bottom: nat, full: set<nat>, fullData: set<nat>, c: Clause) {
    || RoleInclusion(table, full, c) || DataInclusion(table, fullData, c) ||
       EmptyBottom(table, bottom, full, fullData, c)
    || Exclusion(table, c) || Cover(table, c) || NominalOnly(table, c) || NominalMember(table, c)
  }

  // ---------- Each of them is true ----------

  lemma ObjectsDenoted<D(!new), V(!new)>(i: Interp<D, V>, env: Assignment<D, V>, ts: seq<Term>, n: nat)
    requires ObjectTerms(ts, n)
    ensures forall k :: 0 <= k < n ==> DenotedAll(i, env, ts)[k].Element?
  {
    forall k | 0 <= k < n ensures DenotedAll(i, env, ts)[k].Element? {
      assert ObjectTerm(ts[k]);
    }
  }

  lemma RoleHolds<D(!new), V(!new)>(
    i: Interp<D, V>, s: Standards<D, V>, table: seq<Predicate>, env: Assignment<D, V>, a: Atom)
    requires Standard(i, s) && RoleAtom(table, a)
    ensures Holds(i, table, env, a) <==> FullAtom(table, s.full, a)
  {
    ObjectsDenoted(i, env, a.arguments, 2);
  }

  lemma ComplementsHold<D(!new), V(!new)>(
    i: Interp<D, V>, s: Standards<D, V>, table: seq<Predicate>, env: Assignment<D, V>, a: Atom, b: Atom)
    requires Standard(i, s) && Complements(table, a, b)
    ensures Holds(i, table, env, a) <==> !Holds(i, table, env, b)
  {
    if table[a.relation].kind == Concept {
      ObjectsDenoted(i, env, a.arguments, 1);
    } else if table[a.relation].kind == ObjectRole {
      ObjectsDenoted(i, env, a.arguments, 2);
    }
  }

  lemma RoleInclusionTrue<D(!new), V(!new)>(i: Interp<D, V>, s: Standards<D, V>, table: seq<Predicate>, c: Clause)
    requires Standard(i, s) && RoleInclusion(table, s.full, c)
    ensures ClauseTrue(i, table, c.body, c.head)
  {
    hide Standard, Holds;
    forall env: Assignment<D, V> | AllHold(i, table, env, c.body) ensures SomeHolds(i, table, env, c.head) {
      forall k | 0 <= k < |c.body| ensures FullAtom(table, s.full, c.body[k]) {
        RoleHolds(i, s, table, env, c.body[k]);
      }
      RoleHolds(i, s, table, env, c.head[0]);
    }
  }

  lemma EmptyBottomTrue<D(!new), V(!new)>(
    i: Interp<D, V>, s: Standards<D, V>, table: seq<Predicate>, top: nat, bottom: nat, c: Clause)
    requires Standard(i, s) && Fixed(i, Classes, top, bottom) && EmptyBottom(table, bottom, s.full, s.fullData, c)
    ensures ClauseTrue(i, table, c.body, c.head)
  {
    forall env: Assignment<D, V> ensures !Holds(i, table, env, c.body[0]) {
      if RoleAtom(table, c.body[0]) {
        RoleHolds(i, s, table, env, c.body[0]);
      }
      var values := DenotedAll(i, env, c.body[0].arguments);
      if |values| >= 1 && values[0].Element? {
        var d := values[0].element;
        assert Instance(i, Classes, top, d, d) && !Instance(i, Classes, bottom, d, d);
      }
    }
  }

  lemma ExclusionOrCoverTrue<D(!new), V(!new)>(i: Interp<D, V>, s: Standards<D, V>, table: seq<Predicate>, c: Clause)
    requires Standard(i, s) && (Exclusion(table, c) || Cover(table, c))
    ensures ClauseTrue(i, table, c.body, c.head)
  {
    hide Standard, Holds, Complements;
    forall env: Assignment<D, V> | AllHold(i, table, env, c.body) ensures SomeHolds(i, table, env, c.head) {
      if Exclusion(table, c) {
        ComplementsHold(i, s, table, env, c.body[0], c.body[1]);
      } else {
        ComplementsHold(i, s, table, env, c.head[0], c.head[1]);
      }
    }
  }

  /** Under an assignment the equality of the variable with a member, and the nominal, mean what they should. */
  lemma MemberHolds<D(!new), V(!new)>(
    i: Interp<D, V>, s: Standards<D, V>, table: seq<Predicate>, env: Assignment<D, V>, a: Atom, n: nat)
    requires Standard(i, s) && a.relation < |table| && a.arguments == [ObjectVariable(), Individual(n)]
    ensures table[a.relation].kind == Equality ==> (Holds(i, table, env, a) <==> env.objects(0) == s.names(n))
    ensures table[a.relation].kind == Inequality ==> (Holds(i, table, env, a) <==> env.objects(0) != s.names(n))
  {
    assert DenotedAll(i, env, a.arguments) == [Element(env.objects(0)), Element(s.names(n))];
  }

  lemma NominalHolds<D(!new), V(!new)>(
    i: Interp<D, V>, s: Standards<D, V>, table: seq<Predicate>, env: Assignment<D, V>, a: Atom)
    requires Standard(i, s) && a.relation < |table| && a.arguments == [ObjectVariable()]
    ensures table[a.relation].kind == Nominal ==>
      (Holds(i, table, env, a) <==> Listed(s, table[a.relation].annotation, [Element(env.objects(0))]))
    ensures table[a.relation].kind == NegatedNominal ==>
      (Holds(i, table, env, a) <==> !Listed(s, table[a.relation].annotation, [Element(env.objects(0))]))
  {
    assert DenotedAll(i, env, a.arguments) == [Element(env.objects(0))];
  }

  lemma NominalOnlyTrue<D(!new), V(!new)>(i: Interp<D, V>, s: Standards<D, V>, table: seq<Predicate>, c: Clause)
    requires Standard(i, s) && NominalOnly(table, c)
    ensures ClauseTrue(i, table, c.body, c.head)
  {
    hide Standard, Holds;
    var members := table[c.body[0].relation].annotation;
    forall env: Assignment<D, V> | AllHold(i, table, env, c.body) ensures SomeHolds(i, table, env, c.head) {
      NominalHolds(i, s, table, env, c.body[0]);
      assert Holds(i, table, env, c.body[0]);
      var values: seq<Value<D, V>> := [Element(env.objects(0))];
      assert Listed(s, members, values);
      var k :| 0 <= k < |members| && values[0] == Element(s.names(members[k]));
      MemberHolds(i, s, table, env, c.head[k], members[k]);
    }
  }

  lemma NominalMemberTrue<D(!new), V(!new)>(i: Interp<D, V>, s: Standards<D, V>, table: seq<Predicate>, c: Clause)
    requires Standard(i, s) && NominalMember(table, c)
    ensures ClauseTrue(i, table, c.body, c.head)
  {
    hide Standard, Holds;
    var forward := KindAt(table, c.body[0], Equality);
    var nominal, relation := if forward then c.head[0] else c.body[0], if forward then c.body[0] else c.head[0];
    var members := table[nominal.relation].annotation;
    var k :| 0 <= k < |members| && relation.arguments == [ObjectVariable(), Individual(members[k])];
    forall env: Assignment<D, V> | AllHold(i, table, env, c.body) ensures SomeHolds(i, table, env, c.head) {
      NominalHolds(i, s, table, env, nominal);
      MemberHolds(i, s, table, env, relation, members[k]);
      assert Holds(i, table, env, c.body[0]);
      assert env.objects(0) == s.names(members[k]) ==> Listed(s, members, [Element(env.objects(0))]);
    }
  }

  /** However the classes are interpreted, a compiled built-in clause is true. */
  lemma CompiledTrue<D(!new), V(!new)>(
    i: Interp<D, V>, s: Standards<D, V>, table: seq<Predicate>, top: nat, bottom: nat, c: Clause)
    requires Standard(i, s) && Fixed(i, Classes, top, bottom) && Compiled(table, bottom, s.full, s.fullData, c)
    ensures ClauseTrue(i, table, c.body, c.head)
  {
    hide RoleInclusion, EmptyBottom, Exclusion, Cover, NominalOnly, NominalMember, Fixed;
    if RoleInclusion(table, s.full, c) {
      RoleInclusionTrue(i, s, table, c);
    } else if EmptyBottom(table, bottom, s.full, s.fullData, c) {
      EmptyBottomTrue(i, s, table, top, bottom, c);
    } else if Exclusion(table, c) || Cover(table, c) {
      ExclusionOrCoverTrue(i, s, table, c);
    } else if NominalOnly(table, c) {
      NominalOnlyTrue(i, s, table, c);
    } else if NominalMember(table, c) {
      NominalMemberTrue(i, s, table, c);
    } else {
      assert DataInclusion(table, s.fullData, c);
    }
  }

  ghost predicate BuiltinsCompiled(
    p: Program, digest: seq<byte>, problem: Problem, full: set<nat>, fullData: set<nat>)
  {
    forall k :: 0 <= k < |p.clauses| && IsBuiltin(p, digest, p.clauses[k]) ==>
      Compiled(p.predicates, problem.bottom, full, fullData, p.clauses[k])
  }

  lemma StandardWith<D(!new), V(!new)>(setting: Interp<D, V>, s: Standards<D, V>, classes: (nat, D) -> bool)
    requires Standard(setting, s)
    ensures Standard(With(setting, classes), s)
  {
  }

  /** Compiled built-in clauses are laws of every standard setting. */
  lemma CompiledAreLaws<D(!new), V(!new)>(
    p: Program, digest: seq<byte>, problem: Problem, s: Standards<D, V>, setting: Interp<D, V>)
    requires BuiltinsCompiled(p, digest, problem, s.full, s.fullData) && Standard(setting, s)
    ensures BuiltinsAreLaws(p, digest, problem, setting)
  {
    hide Standard, Compiled, IsBuiltin, ClauseTrue;
    forall classes: (nat, D) -> bool, k: nat |
      Fixed(With(setting, classes), Classes, problem.top, problem.bottom) && k < |p.clauses| &&
        IsBuiltin(p, digest, p.clauses[k])
      ensures ClauseTrue(With(setting, classes), p.predicates, p.clauses[k].body, p.clauses[k].head)
    {
      StandardWith(setting, s, classes);
      CompiledTrue(With(setting, classes), s, p.predicates, problem.top, problem.bottom, p.clauses[k]);
    }
  }

  /**
   On every accepted program whose built-in clauses are compiled ones, the derived inclusions are those
   that hold in every model with the standard meaning, and also those that hold in every model of any
   laws the standard meaning obeys.
   */
  lemma FastPathOnCompiled<D(!new), V(!new)>(
    p: Program, digest: seq<byte>, problem: Problem, s: Standards<D, V>, a: nat, b: nat, laws: Interp<D, V> -> bool)
    requires IsClassProblem(p, digest, problem) && problem.complete && ConceptsUnary(p)
    requires BuiltinsCompiled(p, digest, problem, s.full, s.fullData)
    requires forall i: Interp<D, V> :: Standard(i, s) ==> laws(i)
    requires a in problem.elements && b in problem.elements
    ensures Entails(p, problem, a, b, laws) <==> Derives(problem, a, b)
  {
    hide Standard, IsClassProblem, BuiltinsAreLaws, BuiltinsCompiled, ConceptsUnary, Entails, Derives;
    var setting := StandardSetting(s);
    CompiledAreLaws(p, digest, problem, s, setting);
    forall classes: (nat, D) -> bool ensures laws(With(setting, classes)) {
      StandardWith(setting, s, classes);
    }
    FastPathExact(p, digest, problem, a, b, setting, laws);
  }

  // ---------- Provenance alone is not enough ----------

  function ClassPredicate(id: nat, symbol: nat): Predicate {
    Predicate(id, Concept, [Object], Some(symbol), None, None, None, [], None)
  }

  function ClassAtom(relation: nat): Atom {
    Atom(relation, [ObjectVariable()])
  }

  /** Class 2 is below class 3, and a clause with built-in provenance makes the two disjoint. */
  function Sample(digest: seq<byte>): Program {
    Program(
      [Domain(ClassExpression, [
        Symbol(0, [], OWL_THING, false, false), Symbol(1, [], OWL_NOTHING, false, false),
        Symbol(2, [], "class:a", false, false), Symbol(3, [], "class:b", false, false)])],
      [ClassPredicate(0, 2), ClassPredicate(1, 3)],
      [Clause(0, [ClassAtom(0), ClassAtom(1)], [], [0], [0, 1]), Clause(1, [ClassAtom(0)], [ClassAtom(1)], [1], [0])],
      [], [], [], RoleModel([], [], [], 0, 1, 0, 1), [Provenance(0, [digest], true), Provenance(1, [digest], false)])
  }

  const SAMPLE_PROBLEM := Problem([0, 1, 2, 3], 0, 1, {(2, 3)}, true)

  lemma SampleBounds(digest: seq<byte>)
    ensures AreBounds(Sample(digest), Classes, 0, 1)
  {
    var domains := Sample(digest).domains;
    assert domains[0].kind == ClassExpression && DomainAt(domains, ClassExpression) == 0;
    assert OWL_THING[36] == 'T' && OWL_NOTHING[36] == 'N' && |"class:a"| == 7 && |"class:b"| == 7;
    assert ShownOnce(domains, ClassExpression, OWL_THING, 0);
    assert ShownOnce(domains, ClassExpression, OWL_NOTHING, 1);
  }

  lemma DisplaysPublic()
    ensures |OWL_THING| >= 6 && OWL_THING[..6] == "class:"
    ensures |OWL_NOTHING| >= 6 && OWL_NOTHING[..6] == "class:"
    ensures "class:a"[..6] == "class:" && "class:b"[..6] == "class:"
  {
    var thing, nothing := OWL_THING, OWL_NOTHING;
    assert thing[0] == 'c' && thing[1] == 'l' && thing[2] == 'a' && thing[3] == 's' && thing[4] == 's' &&
      thing[5] == ':';
    assert nothing[0] == 'c' && nothing[1] == 'l' && nothing[2] == 'a' && nothing[3] == 's' && nothing[4] == 's' &&
      nothing[5] == ':';
  }

  lemma SampleElements(digest: seq<byte>)
    ensures PublicIds(Sample(digest).domains[0].values) == SAMPLE_PROBLEM.elements
  {
    var values := Sample(digest).domains[0].values;
    DisplaysPublic();
    assert forall k :: 0 <= k < 4 ==> Public(values[k]) && values[k].id == k;
    assert values[4..] == [] && PublicIds(values[4..]) == [];
    assert values[3..][1..] == values[4..] && PublicIds(values[3..]) == [3];
    assert values[2..][1..] == values[3..] && PublicIds(values[2..]) == [2, 3];
    assert values[1..][1..] == values[2..] && PublicIds(values[1..]) == [1, 2, 3];
  }

  lemma SampleKnown(digest: seq<byte>, child: nat, parent: nat)
    ensures (child, parent) in SAMPLE_PROBLEM.known <==>
      exists k :: 0 <= k < |Sample(digest).clauses| && Tells(Sample(digest), Sample(digest).clauses[k], child, parent)
  {
    var p := Sample(digest);
    assert !Tells(p, p.clauses[0], child, parent);
    assert Tells(p, p.clauses[1], child, parent) <==> child == 2 && parent == 3;
  }

  lemma SampleComplete(digest: seq<byte>)
    ensures Complete(Sample(digest), digest, SAMPLE_PROBLEM.elements)
  {
    var p := Sample(digest);
    assert BuiltinEntry(p.provenance[0], digest);
    assert BuiltinId(p.provenance, digest, 0);
    assert IsBuiltin(p, digest, p.clauses[0]);
    assert PredicateVariables([Object]) == [ObjectVariable()];
    assert ClauseIsDomainInclusion(p, p.clauses[1], SAMPLE_PROBLEM.elements);
  }

  lemma SampleAccepted(digest: seq<byte>)
    ensures IsClassProblem(Sample(digest), digest, SAMPLE_PROBLEM) && ConceptsUnary(Sample(digest))
  {
    hide AreBounds, PublicIds, Complete, Tells;
    var p := Sample(digest);
    assert p.domains[0].kind == ClassExpression && DomainAt(p.domains, ClassExpression) == 0;
    SampleBounds(digest);
    SampleElements(digest);
    SampleComplete(digest);
    forall child, parent ensures (child, parent) in SAMPLE_PROBLEM.known <==>
      child in SAMPLE_PROBLEM.elements && parent in SAMPLE_PROBLEM.elements
      && exists k :: 0 <= k < |p.clauses| && Tells(p, p.clauses[k], child, parent)
    {
      SampleKnown(digest, child, parent);
    }
  }

  lemma {:induction false} SampleChain(path: seq<nat>, k: nat)
    requires Chain(SAMPLE_PROBLEM, path) && path[0] == 2 && k < |path|
    ensures path[k] != 1
    ensures path[k] in {0, 2, 3}
  {
    if k > 0 {
      SampleChain(path, k - 1);
      assert Step(SAMPLE_PROBLEM, path[k - 1], path[k - 1 + 1]);
    }
  }

  lemma SampleEmpty<D(!new), V(!new)>(i: Interp<D, V>, digest: seq<byte>, d: D)
    requires ClausesTrue(i, Sample(digest).predicates, Sample(digest).clauses)
    ensures !i.concept(2, d)
  {
    var p := Sample(digest);
    var env := Assignment((_: nat) => d, (y: nat) => i.literal(0, y));
    assert forall k :: 0 <= k < 2 ==> DenotedAll(i, env, ClassAtom(k).arguments) == [Element(d)];
    assert forall k :: 0 <= k < 2 ==> (Holds(i, p.predicates, env, ClassAtom(k)) <==> i.concept(2 + k, d));
    assert p.clauses[0].body == [ClassAtom(0), ClassAtom(1)] && p.clauses[1].body == [ClassAtom(0)] &&
      p.clauses[1].head == [ClassAtom(1)];
    assert ClauseTrue(i, p.predicates, p.clauses[0].body, p.clauses[0].head);
    assert ClauseTrue(i, p.predicates, p.clauses[1].body, p.clauses[1].head);
    if i.concept(2, d) {
      assert AllHold(i, p.predicates, env, p.clauses[1].body);
      assert SomeHolds(i, p.predicates, env, p.clauses[1].head);
      assert AllHold(i, p.predicates, env, p.clauses[0].body);
    }
  }

  lemma SampleUnderivable()
    ensures !Derives(SAMPLE_PROBLEM, 2, SAMPLE_PROBLEM.bottom)
  {
    if Derives(SAMPLE_PROBLEM, 2, SAMPLE_PROBLEM.bottom) {
      var path :| Chain(SAMPLE_PROBLEM, path) && path[0] == 2 && path[|path| - 1] == SAMPLE_PROBLEM.bottom;
      SampleChain(path, |path| - 1);
    }
  }

  /** The program is accepted, class 2 is empty in every model, and the told inclusions do not derive it. */
  lemma ProvenanceIsNotEnough<D(!new), V(!new)>(digest: seq<byte>, laws: Interp<D, V> -> bool)
    ensures IsClassProblem(Sample(digest), digest, SAMPLE_PROBLEM) && SAMPLE_PROBLEM.complete &&
      ConceptsUnary(Sample(digest))
    ensures Entails(Sample(digest), SAMPLE_PROBLEM, 2, SAMPLE_PROBLEM.bottom, laws)
    ensures !Derives(SAMPLE_PROBLEM, 2, SAMPLE_PROBLEM.bottom)
  {
    hide IsClassProblem, ConceptsUnary, Derives, Sample, ClausesTrue, FactsTrue, DisjunctionsTrue;
    SampleAccepted(digest);
    SampleUnderivable();
    forall i: Interp<D, V> | ClassModel(i, Sample(digest), SAMPLE_PROBLEM)
      ensures Included(i, 2, SAMPLE_PROBLEM.bottom)
    {
      forall d: D ensures !i.concept(2, d) {
        SampleEmpty(i, digest, d);
      }
    }
  }
}
