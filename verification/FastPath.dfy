/**
 Classification without tests: when every rule of the program is built in or an inclusion between
 named classes, the told inclusions already are the taxonomy.
 */
module FastPath {
  import opened Bytes
  import opened Programs
  import opened Sorting
  import opened Counterexample

  datatype Problem = Problem(elements: seq<nat>, top: nat, bottom: nat, known: set<(nat, nat)>, complete: bool)

  // ---------- Told inclusions ----------

  /** The class an atom speaks of: a concept predicate applied to one object variable. */
  function PositiveConceptSymbol(p: Program, a: Atom): Option<nat> {
    if a.relation >= |p.predicates| || p.predicates[a.relation].kind != Concept || |a.arguments| != 1
       || !(a.arguments[0].Variable? && a.arguments[0].sort == Object)
    then None
    else p.predicates[a.relation].symbol
  }

  predicate SameArguments(c: Clause) {
    |c.body| == 1 && |c.head| == 1 && c.body[0].arguments == c.head[0].arguments
  }

  predicate Tells(p: Program, c: Clause, child: nat, parent: nat) {
    && SameArguments(c)
    && PositiveConceptSymbol(p, c.body[0]) == Some(child) && PositiveConceptSymbol(p, c.head[0]) == Some(parent)
  }

  /** The inclusions between listed classes that single clauses state. */
  method ToldPairs(p: Program, elements: seq<nat>) returns (known: set<(nat, nat)>)
    ensures forall child, parent :: (child, parent) in known <==>
      child in elements && parent in elements && exists k ::
        0 <= k < |p.clauses| && Tells(p, p.clauses[k], child, parent)
  {
    known := {};
    for n := 0 to |p.clauses|
      invariant forall child, parent :: (child, parent) in known <==>
        child in elements && parent in elements && exists k :: 0 <= k < n && Tells(p, p.clauses[k], child, parent)
    {
      var c := p.clauses[n];
      if SameArguments(c) {
        var child, parent := PositiveConceptSymbol(p, c.body[0]), PositiveConceptSymbol(p, c.head[0]);
        if child.Some? && parent.Some? && child.value in elements && parent.value in elements {
          assert Tells(p, c, child.value, parent.value);
          known := known + {(child.value, parent.value)};
        }
      }
    }
  }

  // ---------- When the told inclusions are all there is ----------

  /** Numbers of the provenance entries that mark built-in rules. */
  ghost predicate BuiltinEntry(e: Provenance, digest: seq<byte>) {
    e.generated && e.sources == [digest]
  }

  method BuiltinProvenanceIds(entries: seq<Provenance>, digest: seq<byte>) returns (ids: set<nat>)
    ensures forall id :: id in ids <==> BuiltinId(entries, digest, id)
  {
    ids := {};
    for n := 0 to |entries|
      invariant forall id :: id in ids <==> BuiltinId(entries[..n], digest, id)
    {
      var e := entries[n];
      assert entries[..n + 1] == entries[..n] + [e];
      forall id
        ensures BuiltinId(entries[..n + 1], digest, id) <==>
          BuiltinId(entries[..n], digest, id) || (BuiltinEntry(e, digest) && e.id == id)
      {
        BuiltinIdAppend(entries[..n], e, digest, id);
      }
      if e.generated && |e.sources| == 1 && e.sources[0] == digest {
        assert e.sources == [digest];
        ids := ids + {e.id};
      }
    }
    assert entries[..|entries|] == entries;
  }

  ghost predicate BuiltinId(entries: seq<Provenance>, digest: seq<byte>, id: nat) {
    exists k :: 0 <= k < |entries| && entries[k].id == id && BuiltinEntry(entries[k], digest)
  }

  lemma BuiltinIdAppend(entries: seq<Provenance>, e: Provenance, digest: seq<byte>, id: nat)
    ensures BuiltinId(entries + [e], digest, id) <==>
      BuiltinId(entries, digest, id) || (BuiltinEntry(e, digest) && e.id == id)
  {
    var longer := entries + [e];
    if BuiltinId(entries, digest, id) {
      var k :| 0 <= k < |entries| && entries[k].id == id && BuiltinEntry(entries[k], digest);
      assert longer[k] == entries[k];
    }
    assert longer[|entries|] == e;
  }

  ghost predicate IsBuiltin(p: Program, digest: seq<byte>, c: Clause) {
    c.provenance != [] && forall k :: 0 <= k < |c.provenance| ==> BuiltinId(p.provenance, digest, c.provenance[k])
  }

  predicate ClauseIsBuiltin(c: Clause, builtin: set<nat>) {
    c.provenance != [] && forall k :: 0 <= k < |c.provenance| ==> c.provenance[k] in builtin
  }

  function PredicateVariables(sorts: seq<Sort>): seq<Term> {
    seq(|sorts|, k requires 0 <= k < |sorts| => Variable(k, sorts[k]))
  }

  function PositiveDomainIdentifier(p: Program, a: Atom): Option<nat> {
    if a.relation >= |p.predicates| || p.predicates[a.relation].kind != Concept
       || a.arguments != PredicateVariables(p.predicates[a.relation].sorts)
    then None
    else p.predicates[a.relation].symbol
  }

  predicate ClauseIsDomainInclusion(p: Program, c: Clause, elements: seq<nat>) {
    && SameArguments(c)
    && var child, parent := PositiveDomainIdentifier(p, c.body[0]), PositiveDomainIdentifier(p, c.head[0]);
    && child.Some? && parent.Some? && child.value in elements && parent.value in elements
  }

  ghost predicate Complete(p: Program, digest: seq<byte>, elements: seq<nat>) {
    && p.positive == [] && p.negative == [] && p.disjunctions == []
    && (exists id :: BuiltinId(p.provenance, digest, id))
    && forall k :: 0 <= k < |p.clauses| ==>
       IsBuiltin(p, digest, p.clauses[k]) || ClauseIsDomainInclusion(p, p.clauses[k], elements)
  }

  method ToldRelationIsComplete(p: Program, digest: seq<byte>, elements: seq<nat>) returns (complete: bool)
    ensures complete <==> Complete(p, digest, elements)
  {
    if p.positive != [] || p.negative != [] || p.disjunctions != [] {
      return false;
    }
    var builtin := BuiltinProvenanceIds(p.provenance, digest);
    if builtin == {} {
      return false;
    }
    var id :| id in builtin;
    assert BuiltinId(p.provenance, digest, id);
    for n := 0 to |p.clauses|
      invariant forall k :: 0 <= k < n ==>
        IsBuiltin(p, digest, p.clauses[k]) || ClauseIsDomainInclusion(p, p.clauses[k], elements)
    {
      var c := p.clauses[n];
      assert ClauseIsBuiltin(c, builtin) <==> IsBuiltin(p, digest, c);
      if !ClauseIsBuiltin(c, builtin) && !ClauseIsDomainInclusion(p, c, elements) {
        return false;
      }
    }
    return true;
  }

  // ---------- The class problem ----------

  predicate Public(s: Symbol) {
    !s.generated && !s.queryLocal && |s.display| >= 6 && s.display[..6] == "class:"
  }

  function PublicIds(values: seq<Symbol>): (ids: seq<nat>)
    ensures forall id :: id in ids <==> exists k :: 0 <= k < |values| && Public(values[k]) && values[k].id == id
  {
    if values == [] then []
    else
      assert values == [values[0]] + values[1..];
      (if Public(values[0]) then [values[0].id] else []) + PublicIds(values[1..])
  }

  /** Ascending without repetition, with distinct top and bottom among them. */
  predicate ValidElements(elements: seq<nat>, top: nat, bottom: nat) {
    && |elements| >= 2 && Rising(elements)
    && top != bottom && top in elements && bottom in elements
  }

  ghost predicate IsClassProblem(p: Program, digest: seq<byte>, problem: Problem) {
    && AreBounds(p, Classes, problem.top, problem.bottom)
    && DomainAt(p.domains, ClassExpression) < |p.domains|
    && problem.elements == PublicIds(p.domains[DomainAt(p.domains, ClassExpression)].values)
    && ValidElements(problem.elements, problem.top, problem.bottom)
    && (forall child, parent :: (child, parent) in problem.known <==>
      child in problem.elements && parent in problem.elements
      && exists k :: 0 <= k < |p.clauses| && Tells(p, p.clauses[k], child, parent))
    && (problem.complete <==> Complete(p, digest, problem.elements))
  }

  method ClassProblem(p: Program, digest: seq<byte>) returns (r: Wire<Problem>)
    ensures r.Ok? ==> IsClassProblem(p, digest, r.value)
    ensures r.WireError? ==> forall problem :: !IsClassProblem(p, digest, problem)
  {
    hide Complete, Tells, AreBounds, PublicIds;
    var i := DomainAt(p.domains, ClassExpression);
    if i == |p.domains| {
      return WireError;
    }
    var elements := PublicIds(p.domains[i].values);
    var bounds :- DomainBounds(p, Classes);
    if !ValidElements(elements, bounds.0, bounds.1) {
      forall problem ensures !IsClassProblem(p, digest, problem) {
        if AreBounds(p, Classes, problem.top, problem.bottom) { BoundsUnique(p, Classes, problem.top, problem.bottom,
          bounds.0, bounds.1); }
      }
      return WireError;
    }
    var known := ToldPairs(p, elements);
    var complete := ToldRelationIsComplete(p, digest, elements);
    return Ok(Problem(elements, bounds.0, bounds.1, known, complete));
  }

  // ---------- What the rules look like ----------

  /** Predicate `k` is the class `symbol`. */
  predicate ClassAt(p: Program, k: nat, symbol: nat) {
    k < |p.predicates| && p.predicates[k].kind == Concept && p.predicates[k].symbol == Some(symbol)
  }

  /** The rule `child(x) -> parent(x)`, for predicates `a` and `b` and an object variable of number `x`. */
  predicate Rule(p: Program, c: Clause, a: nat, b: nat, x: nat, child: nat, parent: nat) {
    && c.body == [Atom(a, [Variable(x, Object)])] && c.head == [Atom(b, [Variable(x, Object)])]
    && ClassAt(p, a, child) && ClassAt(p, b, parent)
  }

  /** An inclusion is told by exactly the rules that say it of one object variable. */
  lemma TellsIff(p: Program, c: Clause, child: nat, parent: nat)
    ensures Tells(p, c, child, parent) <==> exists a, b, x :: Rule(p, c, a, b, x, child, parent)
  {
    if Tells(p, c, child, parent) {
      var a, b, x := c.body[0].relation, c.head[0].relation, c.body[0].arguments[0].index;
      assert c.body[0].arguments == [Variable(x, Object)];
      assert c.body == [Atom(a, [Variable(x, Object)])] && c.head == [Atom(b, [Variable(x, Object)])];
      assert Rule(p, c, a, b, x, child, parent);
    }
  }

  /** The inclusions the fast path admits are the told ones on variable 0 between listed classes. */
  lemma InclusionIff(p: Program, c: Clause, elements: seq<nat>)
    requires ConceptsUnary(p)
    ensures ClauseIsDomainInclusion(p, c, elements) <==>
      exists a, b, child, parent :: Rule(p, c, a, b, 0, child, parent) && child in elements && parent in elements
  {
    if ClauseIsDomainInclusion(p, c, elements) {
      var a, b := c.body[0].relation, c.head[0].relation;
      var child, parent := PositiveDomainIdentifier(p, c.body[0]).value, PositiveDomainIdentifier(p, c.head[0]).value;
      assert c.body[0].arguments == [Variable(0, Object)];
      assert c.body == [Atom(a, [Variable(0, Object)])] && c.head == [Atom(b, [Variable(0, Object)])];
      assert Rule(p, c, a, b, 0, child, parent);
    }
    if a, b, child, parent :| Rule(p, c, a, b, 0, child, parent) && child in elements && parent in elements {
      assert PredicateVariables([Object]) == [Variable(0, Object)];
    }
  }

  /** A symbol is listed exactly when it is shown as a class and neither the compiler nor a query made it. */
  lemma PublicIff(values: seq<Symbol>, id: nat)
    ensures id in PublicIds(values) <==> exists s, iri: string ::
      s in values && s.id == id && s.display == "class:" + iri && !s.generated && !s.queryLocal
  {
    if id in PublicIds(values) {
      var k :| 0 <= k < |values| && Public(values[k]) && values[k].id == id;
      assert values[k] in values && values[k].display == "class:" + values[k].display[6..];
    }
    if s, iri: string :| s in values && s.id == id && s.display == "class:" + iri && !s.generated && !s.queryLocal {
      var k :| 0 <= k < |values| && values[k] == s;
      assert s.display[..6] == "class:";
    }
  }

  /** A rule with any source of its own is not built in. */
  lemma SourcesAreNotBuiltin(p: Program, digest: seq<byte>, c: Clause, id: nat)
    requires id in c.provenance
    requires forall k :: 0 <= k < |p.provenance| && p.provenance[k].id == id ==>
      !p.provenance[k].generated || exists other :: other in p.provenance[k].sources && other != digest
    ensures !IsBuiltin(p, digest, c)
  {
    var j :| 0 <= j < |c.provenance| && c.provenance[j] == id;
    assert !BuiltinId(p.provenance, digest, c.provenance[j]);
  }

  // ---------- The taxonomy the told inclusions generate ----------

  ghost predicate Step(problem: Problem, x: nat, y: nat) {
    || (x, y) in problem.known
    || (x == problem.bottom && y in problem.elements)
    || (y == problem.top && x in problem.elements)
  }

  ghost predicate Chain(problem: Problem, path: seq<nat>) {
    path != [] && forall k :: 0 <= k < |path| - 1 ==> Step(problem, path[k], path[k + 1])
  }

  /** The reflexive-transitive closure of the told pairs with bottom below and top above every class. */
  ghost predicate Derives(problem: Problem, a: nat, b: nat) {
    exists path :: Chain(problem, path) && path[0] == a && path[|path| - 1] == b
  }

  lemma DerivesItself(problem: Problem, a: nat)
    ensures Derives(problem, a, a)
  {
    assert Chain(problem, [a]);
  }

  lemma DerivesStep(problem: Problem, a: nat, b: nat, c: nat)
    requires Derives(problem, a, b) && Step(problem, b, c)
    ensures Derives(problem, a, c)
  {
    var path :| Chain(problem, path) && path[0] == a && path[|path| - 1] == b;
    var longer := path + [c];
    forall k | 0 <= k < |longer| - 1 ensures Step(problem, longer[k], longer[k + 1]) {
      if k < |path| - 1 { assert Step(problem, path[k], path[k + 1]); }
    }
    assert Chain(problem, longer);
  }

  // ---------- Models ----------

  /** A model of the program in which top is everything and bottom nothing. */
  ghost predicate ClassModel<D(!new), V(!new)>(i: Interp<D, V>, p: Program, problem: Problem) {
    Fixed(i, Classes, problem.top, problem.bottom) && Satisfies(i, p.predicates, p)
  }

  ghost predicate Included<D(!new), V(!new)>(i: Interp<D, V>, a: nat, b: nat) {
    forall d: D :: i.concept(a, d) ==> i.concept(b, d)
  }

  /** The inclusion is true in every model that obeys the laws of the setting. */
  ghost predicate Entails<D(!new), V(!new)>(p: Program, problem: Problem, a: nat, b: nat, laws: Interp<D, V> -> bool) {
    forall i: Interp<D, V> :: laws(i) && ClassModel(i, p, problem) ==> Included(i, a, b)
  }

  /** The setting with its classes interpreted anew. */
  ghost function With<D, V>(setting: Interp<D, V>, classes: (nat, D) -> bool): Interp<D, V> {
    setting.(concept := classes)
  }

  /**
   In this setting the built-in clauses demand nothing of the classes but that top is everything and
   bottom nothing. What they say of roles and of other predicates is up to the setting.
   */
  ghost predicate BuiltinsAreLaws<D(!new), V(!new)>(
    p: Program, digest: seq<byte>, problem: Problem, setting: Interp<D, V>)
  {
    forall classes: (nat, D) -> bool, k: nat ::
      Fixed(With(setting, classes), Classes, problem.top, problem.bottom) && k < |p.clauses| &&
        IsBuiltin(p, digest, p.clauses[k])
      ==> ClauseTrue(With(setting, classes), p.predicates, p.clauses[k].body, p.clauses[k].head)
  }

  /** The laws hold in the setting however the classes are interpreted. */
  ghost predicate Allows<D(!new), V(!new)>(laws: Interp<D, V> -> bool, setting: Interp<D, V>) {
    forall classes: (nat, D) -> bool :: laws(With(setting, classes))
  }

  /** The decoder admits concept predicates over one object only. */
  ghost predicate ConceptsUnary(p: Program) {
    forall k :: 0 <= k < |p.predicates| && p.predicates[k].kind == Concept ==> p.predicates[k].sorts == [Object]
  }

  lemma ConceptHolds<D(!new), V(!new)>(i: Interp<D, V>, p: Program, env: Assignment<D, V>, a: Atom)
    requires PositiveConceptSymbol(p, a).Some?
    ensures Holds(i, p.predicates, env, a) <==>
      i.concept(PositiveConceptSymbol(p, a).value, env.objects(a.arguments[0].index))
  {
    assert DenotedAll(i, env, a.arguments)[0] == Element(env.objects(a.arguments[0].index));
  }

  /** A told clause is true exactly when its inclusion holds. */
  lemma ToldClause<D(!new), V(!new)>(i: Interp<D, V>, p: Program, c: Clause, child: nat, parent: nat)
    requires Tells(p, c, child, parent)
    ensures ClauseTrue(i, p.predicates, c.body, c.head) <==> Included(i, child, parent)
  {
    var x := c.body[0].arguments[0].index;
    forall env: Assignment<D, V>
      ensures AllHold(i, p.predicates, env, c.body) <==> i.concept(child, env.objects(x))
      ensures SomeHolds(i, p.predicates, env, c.head) <==> i.concept(parent, env.objects(x))
    {
      ConceptHolds(i, p, env, c.body[0]);
      ConceptHolds(i, p, env, c.head[0]);
    }
    if ClauseTrue(i, p.predicates, c.body, c.head) {
      forall d: D | i.concept(child, d) ensures i.concept(parent, d) {
        var env := Assignment((_: nat) => d, (y: nat) => i.literal(0, y));
        assert AllHold(i, p.predicates, env, c.body);
        assert env.objects(x) == d;
      }
    }
  }

  /** A derived inclusion is true in every model. */
  lemma {:induction false} ChainSound<D(!new), V(!new)>(
    i: Interp<D, V>, p: Program, digest: seq<byte>, problem: Problem, path: seq<nat>)
    requires IsClassProblem(p, digest, problem) && ClassModel(i, p, problem) && Chain(problem, path)
    ensures Included(i, path[0], path[|path| - 1])
    decreases |path|
  {
    if |path| > 1 {
      var rest := path[1..];
      assert Chain(problem, rest) by {
        forall k | 0 <= k < |rest| - 1 ensures Step(problem, rest[k], rest[k + 1]) {
          assert Step(problem, path[k + 1], path[k + 2]);
        }
      }
      ChainSound(i, p, digest, problem, rest);
      assert Step(problem, path[0], path[1]);
      StepSound(i, p, digest, problem, path[0], path[1]);
    }
  }

  lemma StepSound<D(!new), V(!new)>(i: Interp<D, V>, p: Program, digest: seq<byte>, problem: Problem, x: nat, y: nat)
    requires IsClassProblem(p, digest, problem) && ClassModel(i, p, problem) && Step(problem, x, y)
    ensures Included(i, x, y)
  {
    if (x, y) in problem.known {
      var k :| 0 <= k < |p.clauses| && Tells(p, p.clauses[k], x, y);
      ToldClause(i, p, p.clauses[k], x, y);
    } else {
      forall d: D | i.concept(x, d) ensures i.concept(y, d) {
        assert Instance(i, Classes, problem.top, d, d) && !Instance(i, Classes, problem.bottom, d, d);
      }
    }
  }

  /** Every element is in exactly the classes derived from `a`. */
  ghost function Canonical<D, V>(problem: Problem, a: nat, setting: Interp<D, V>): Interp<D, V> {
    With(setting, (symbol: nat, d: D) => Derives(problem, a, symbol))
  }

  /** An accepted inclusion clause is a told one. */
  lemma InclusionTells(p: Program, c: Clause, elements: seq<nat>)
    requires ConceptsUnary(p) && ClauseIsDomainInclusion(p, c, elements)
    ensures exists child, parent :: Tells(p, c, child, parent) && child in elements && parent in elements
  {
    var child, parent := PositiveDomainIdentifier(p, c.body[0]).value, PositiveDomainIdentifier(p, c.head[0]).value;
    assert c.body[0].arguments[0] == Variable(0, Object);
    assert Tells(p, c, child, parent);
  }

  lemma CanonicalModel<D(!new), V(!new)>(p: Program, digest: seq<byte>, problem: Problem, a: nat, setting: Interp<D, V>)
    requires IsClassProblem(p, digest, problem) && problem.complete && ConceptsUnary(p) &&
      BuiltinsAreLaws(p, digest, problem, setting)
    requires a in problem.elements && !Derives(problem, a, problem.bottom)
    ensures ClassModel(Canonical(problem, a, setting), p, problem)
  {
    var i := Canonical(problem, a, setting);
    DerivesItself(problem, a);
    DerivesStep(problem, a, a, problem.top);
    assert Fixed(i, Classes, problem.top, problem.bottom);
    forall k | 0 <= k < |p.clauses| ensures ClauseTrue(i, p.predicates, p.clauses[k].body, p.clauses[k].head) {
      var c := p.clauses[k];
      if !IsBuiltin(p, digest, c) {
        InclusionTells(p, c, problem.elements);
        var child, parent :| Tells(p, c, child, parent) && child in problem.elements && parent in problem.elements;
        assert (child, parent) in problem.known;
        assert Included(i, child, parent) by {
          if Derives(problem, a, child) { DerivesStep(problem, a, child, parent); }
        }
        ToldClause(i, p, c, child, parent);
      }
    }
  }

  /**
   On an accepted program whose built-in clauses are laws of the setting, the inclusions between
   listed classes that hold in every model are exactly the derived ones, whatever other laws the
   setting obeys and whatever the domain.
   */
  lemma FastPathExact<D(!new), V(!new)>(
    p: Program, digest: seq<byte>, problem: Problem, a: nat, b: nat, setting: Interp<D, V>, laws: Interp<D, V> -> bool)
    requires IsClassProblem(p, digest, problem) && problem.complete && ConceptsUnary(p)
    requires BuiltinsAreLaws(p, digest, problem, setting) && Allows(laws, setting)
    requires a in problem.elements && b in problem.elements
    ensures Entails(p, problem, a, b, laws) <==> Derives(problem, a, b)
  {
    if Derives(problem, a, b) {
      var path :| Chain(problem, path) && path[0] == a && path[|path| - 1] == b;
      forall i: Interp<D, V> | laws(i) && ClassModel(i, p, problem) ensures Included(i, a, b) {
        ChainSound(i, p, digest, problem, path);
      }
    } else {
      if Derives(problem, a, problem.bottom) { DerivesStep(problem, a, problem.bottom, b); }
      CanonicalModel(p, digest, problem, a, setting);
      var i := Canonical(problem, a, setting);
      assert laws(i);
      DerivesItself(problem, a);
      assert i.concept(a, setting.individual(0)) && !i.concept(b, setting.individual(0));
      assert !Included(i, a, b);
    }
  }

  /** The fast path and the counterexample query answer alike. */
  lemma FastPathAgrees<D(!new), V(!new)>(
    p: Program, digest: seq<byte>, problem: Problem, a: nat, b: nat, setting: Interp<D, V>, laws: Interp<D, V> -> bool)
    requires IsClassProblem(p, digest, problem) && problem.complete && ConceptsUnary(p)
    requires BuiltinsAreLaws(p, digest, problem, setting) && Allows(laws, setting)
    requires a in problem.elements && b in problem.elements
    ensures Derives(problem, a, b) <==> !HasCounterexample(p, Classes, a, b, problem.top, problem.bottom, laws)
  {
    FastPathExact(p, digest, problem, a, b, setting, laws);
    if HasCounterexample(p, Classes, a, b, problem.top, problem.bottom, laws) {
      var i: Interp<D, V>, d: D, e: D :|
        IsModel(i, p, Classes, problem.top, problem.bottom, laws) && Instance(i, Classes, a, d, e) &&
          !Instance(i, Classes, b, d, e);
      assert ClassModel(i, p, problem) && !Included(i, a, b);
    }
    if !Entails(p, problem, a, b, laws) {
      var i: Interp<D, V> :| laws(i) && ClassModel(i, p, problem) && !Included(i, a, b);
      var d: D :| i.concept(a, d) && !i.concept(b, d);
      assert IsModel(i, p, Classes, problem.top, problem.bottom, laws);
      assert Instance(i, Classes, a, d, d) && !Instance(i, Classes, b, d, d);
    }
  }
}
