/**
 The structural syntax of OWL 2 ontologies, as data, and the tree that stands for each of its values.
 */
module OwlSyntax {
  import opened Bytes
  import opened Structure
  import opened OwlParts
  import Rows
  import Uniqueness
  import Utf8

  datatype Entity = Entity(kind: Rows.EntityKind, iri: Text)

  datatype Individual = Named(iri: Text) | Anonymous(scope: seq<byte>, name: seq<byte>)

  datatype Language = NoLanguage | Tagged(tag: Text)

  datatype Literal = Literal(lexical: Text, datatypeIri: Text, language: Language)

  datatype AnnotationSubject = IriSubject(iri: Text) | AnonymousSubject(scope: seq<byte>, name: seq<byte>)

  datatype AnnotationValue = SubjectValue(subject: AnnotationSubject) | LiteralValue(literal: Literal)

  datatype Annotation = Annotation(property: Text, value: AnnotationValue, annotations: set<Annotation>)

  datatype Property = Direct(iri: Text) | InverseOf(iri: Text)

  datatype SubProperty = Single(property: Property) | Chain(properties: seq<Property>)

  datatype Facet = Facet(iri: Text, value: Literal)

  datatype Range =
    | Datatype(iri: Text)
    | DataIntersectionOf(ranges: set<Range>)
    | DataUnionOf(ranges: set<Range>)
    | DataComplementOf(range: Range)
    | DataOneOf(literals: set<Literal>)
    | DatatypeRestriction(iri: Text, facets: set<Facet>)

  datatype Class =
    | NamedClass(iri: Text)
    | ObjectIntersectionOf(classes: set<Class>)
    | ObjectUnionOf(classes: set<Class>)
    | ObjectComplementOf(filler: Class)
    | ObjectOneOf(individuals: set<Individual>)
    | ObjectSomeValuesFrom(property: Property, filler: Class)
    | ObjectAllValuesFrom(property: Property, filler: Class)
    | ObjectHasValue(property: Property, individual: Individual)
    | ObjectHasSelf(property: Property)
    | ObjectMinCardinality(count: nat, property: Property, filler: Class)
    | ObjectMaxCardinality(count: nat, property: Property, filler: Class)
    | ObjectExactCardinality(count: nat, property: Property, filler: Class)
    | DataSomeValuesFrom(properties: seq<Text>, range: Range)
    | DataAllValuesFrom(properties: seq<Text>, range: Range)
    | DataHasValue(dataProperty: Text, literal: Literal)
    | DataMinCardinality(count: nat, dataProperty: Text, range: Range)
    | DataMaxCardinality(count: nat, dataProperty: Text, range: Range)
    | DataExactCardinality(count: nat, dataProperty: Text, range: Range)

  datatype Characteristic =
    Functional | InverseFunctional | Reflexive | Irreflexive | Symmetric | Asymmetric | Transitive

  datatype Statement =
    | Declaration(entity: Entity)
    | SubClassOf(sub: Class, super: Class)
    | EquivalentClasses(classes: set<Class>)
    | DisjointClasses(classes: set<Class>)
    | DisjointUnion(iri: Text, classes: set<Class>)
    | SubObjectPropertyOf(subProperty: SubProperty, superProperty: Property)
    | EquivalentObjectProperties(properties: set<Property>)
    | DisjointObjectProperties(properties: set<Property>)
    | InverseObjectProperties(left: Property, right: Property)
    | ObjectPropertyDomain(property: Property, domain: Class)
    | ObjectPropertyRange(property: Property, rangeClass: Class)
    | ObjectPropertyIs(characteristic: Characteristic, property: Property)
    | SubDataPropertyOf(subIri: Text, superIri: Text)
    | EquivalentDataProperties(iris: set<Text>)
    | DisjointDataProperties(iris: set<Text>)
    | DataPropertyDomain(iri: Text, domain: Class)
    | DataPropertyRange(iri: Text, range: Range)
    | FunctionalDataProperty(iri: Text)
    | DatatypeDefinition(iri: Text, range: Range)
    | HasKey(keyed: Class, properties: set<Property>, iris: set<Text>)
    | SameIndividual(individuals: set<Individual>)
    | DifferentIndividuals(individuals: set<Individual>)
    | ClassAssertion(asserted: Class, individual: Individual)
    | ObjectPropertyAssertion(property: Property, source: Individual, target: Individual)
    | NegativeObjectPropertyAssertion(property: Property, source: Individual, target: Individual)
    | DataPropertyAssertion(iri: Text, source: Individual, value: Literal)
    | NegativeDataPropertyAssertion(iri: Text, source: Individual, value: Literal)
    | AnnotationAssertion(iri: Text, subject: AnnotationSubject, annotationValue: AnnotationValue)
    | SubAnnotationPropertyOf(subIri: Text, superIri: Text)
    | AnnotationPropertyDomain(iri: Text, domainIri: Text)
    | AnnotationPropertyRange(iri: Text, rangeIri: Text)

  datatype IndividualArgument = IndividualIs(individual: Individual) | IndividualVariable(iri: Text)

  datatype DataArgument = LiteralIs(literal: Literal) | DataVariable(iri: Text)

  datatype Atom =
    | ClassAtom(predicateClass: Class, argument: IndividualArgument)
    | DataRangeAtom(range: Range, dataArgument: DataArgument)
    | ObjectPropertyAtom(property: Property, left: IndividualArgument, right: IndividualArgument)
    | DataPropertyAtom(iri: Text, left: IndividualArgument, dataArgument: DataArgument)
    | BuiltInAtom(iri: Text, arguments: seq<DataArgument>)
    | SameIndividualAtom(left: IndividualArgument, right: IndividualArgument)
    | DifferentIndividualsAtom(left: IndividualArgument, right: IndividualArgument)

  /** What an ontology is made of. */
  datatype Item =
    | OntologyAnnotation(annotation: Annotation)
    | Axiom(statement: Statement, annotations: set<Annotation>)
    | Rule(body: set<Atom>, head: set<Atom>, annotations: set<Annotation>)

  // ---------- Trees ----------

  ghost function IriTree(iri: Text): Tree {
    Tree(1, [TextArgument(Utf8.Encode(iri))])
  }

  ghost function EntityTree(kind: Rows.EntityKind, iri: Text): Tree {
    Tree(2, [EnumArgument(Rows.KindName(kind)), TreeArgument(IriTree(iri))])
  }

  ghost function AnonymousTree(scope: seq<byte>, name: seq<byte>): Tree {
    Tree(3, [RawArgument(scope), RawArgument(name)])
  }

  ghost function IndividualTree(i: Individual): Tree {
    match i
    case Named(iri) => EntityTree(Rows.NamedIndividualEntity, iri)
    case Anonymous(scope, name) => AnonymousTree(scope, name)
  }

  ghost function LanguageArgument(l: Language): Argument {
    if l.Tagged? then TextArgument(Utf8.Encode(l.tag)) else AbsentArgument
  }

  ghost function LiteralTree(l: Literal): Tree {
    Tree(4, [
      TextArgument(Utf8.Encode(l.lexical)), TreeArgument(EntityTree(Rows.DatatypeEntity, l.datatypeIri)),
      LanguageArgument(l.language)])
  }

  ghost function SubjectTree(s: AnnotationSubject): Tree {
    if s.IriSubject? then IriTree(s.iri) else AnonymousTree(s.scope, s.name)
  }

  ghost function ValueTree(v: AnnotationValue): Tree {
    if v.SubjectValue? then SubjectTree(v.subject) else LiteralTree(v.literal)
  }

  ghost function AnnotationTree(a: Annotation): Tree
    decreases a
  {
    Tree(5, [
      TreeArgument(EntityTree(Rows.AnnotationPropertyEntity, a.property)), TreeArgument(ValueTree(a.value)),
      SetArgument(set x | x in a.annotations :: AnnotationTree(x))])
  }

  ghost function PropertyTree(p: Property): Tree {
    var named := EntityTree(Rows.ObjectPropertyEntity, p.iri);
    if p.Direct? then named else Tree(10, [TreeArgument(named)])
  }

  ghost function SubPropertyTree(p: SubProperty): Tree {
    match p
    case Single(property) => PropertyTree(property)
    case Chain(properties) =>
      Tree(11, [SequenceArgument(seq(|properties|, i requires 0 <= i < |properties| => PropertyTree(properties[i])))])
  }

  ghost function DataPropertyTree(iri: Text): Tree {
    EntityTree(Rows.DataPropertyEntity, iri)
  }

  ghost function FacetTree(f: Facet): Tree {
    Tree(20, [TreeArgument(IriTree(f.iri)), TreeArgument(LiteralTree(f.value))])
  }

  ghost function RangeTree(r: Range): Tree
    decreases r
  {
    match r
    case Datatype(iri) => EntityTree(Rows.DatatypeEntity, iri)
    case DataIntersectionOf(ranges) => Tree(21, [SetArgument(set x | x in ranges :: RangeTree(x))])
    case DataUnionOf(ranges) => Tree(22, [SetArgument(set x | x in ranges :: RangeTree(x))])
    case DataComplementOf(range) => Tree(23, [TreeArgument(RangeTree(range))])
    case DataOneOf(literals) => Tree(24, [SetArgument(set x | x in literals :: LiteralTree(x))])
    case DatatypeRestriction(iri, facets) =>
      Tree(25, [TreeArgument(EntityTree(Rows.DatatypeEntity, iri)), SetArgument(set x | x in facets :: FacetTree(x))])
  }

  ghost function DataProperties(iris: seq<Text>): Argument {
    SequenceArgument(seq(|iris|, i requires 0 <= i < |iris| => DataPropertyTree(iris[i])))
  }

  ghost function ClassTree(c: Class): Tree
    decreases c
  {
    match c
    case NamedClass(iri) => EntityTree(Rows.ClassEntity, iri)
    case ObjectIntersectionOf(classes) => Tree(30, [SetArgument(set x | x in classes :: ClassTree(x))])
    case ObjectUnionOf(classes) => Tree(31, [SetArgument(set x | x in classes :: ClassTree(x))])
    case ObjectComplementOf(filler) => Tree(32, [TreeArgument(ClassTree(filler))])
    case ObjectOneOf(individuals) => Tree(33, [SetArgument(set x | x in individuals :: IndividualTree(x))])
    case ObjectSomeValuesFrom(p, filler) => Tree(34, [TreeArgument(PropertyTree(p)), TreeArgument(ClassTree(filler))])
    case ObjectAllValuesFrom(p, filler) => Tree(35, [TreeArgument(PropertyTree(p)), TreeArgument(ClassTree(filler))])
    case ObjectHasValue(p, i) => Tree(36, [TreeArgument(PropertyTree(p)), TreeArgument(IndividualTree(i))])
    case ObjectHasSelf(p) => Tree(37, [TreeArgument(PropertyTree(p))])
    case ObjectMinCardinality(n, p, filler) =>
      Tree(38, [IntegerArgument(n), TreeArgument(PropertyTree(p)), TreeArgument(ClassTree(filler))])
    case ObjectMaxCardinality(n, p, filler) =>
      Tree(39, [IntegerArgument(n), TreeArgument(PropertyTree(p)), TreeArgument(ClassTree(filler))])
    case ObjectExactCardinality(n, p, filler) =>
      Tree(40, [IntegerArgument(n), TreeArgument(PropertyTree(p)), TreeArgument(ClassTree(filler))])
    case DataSomeValuesFrom(iris, r) => Tree(41, [DataProperties(iris), TreeArgument(RangeTree(r))])
    case DataAllValuesFrom(iris, r) => Tree(42, [DataProperties(iris), TreeArgument(RangeTree(r))])
    case DataHasValue(iri, l) => Tree(43, [TreeArgument(DataPropertyTree(iri)), TreeArgument(LiteralTree(l))])
    case DataMinCardinality(n, iri, r) =>
      Tree(44, [IntegerArgument(n), TreeArgument(DataPropertyTree(iri)), TreeArgument(RangeTree(r))])
    case DataMaxCardinality(n, iri, r) =>
      Tree(45, [IntegerArgument(n), TreeArgument(DataPropertyTree(iri)), TreeArgument(RangeTree(r))])
    case DataExactCardinality(n, iri, r) =>
      Tree(46, [IntegerArgument(n), TreeArgument(DataPropertyTree(iri)), TreeArgument(RangeTree(r))])
  }

  ghost function VariableTree(iri: Text): Tree {
    Tree(140, [One(IriTree)(iri)])
  }

  ghost function IndividualArgumentTree(a: IndividualArgument): Tree {
    if a.IndividualIs? then IndividualTree(a.individual) else VariableTree(a.iri)
  }

  ghost function DataArgumentTree(a: DataArgument): Tree {
    if a.LiteralIs? then LiteralTree(a.literal) else VariableTree(a.iri)
  }

  ghost function DataName(): Text -> Tree { Names(Rows.DataPropertyEntity) }

  ghost function AtomTree(a: Atom): Tree {
    match a
    case ClassAtom(c, x) => Tree(141, [One(ClassTree)(c), One(IndividualArgumentTree)(x)])
    case DataRangeAtom(r, x) => Tree(142, [One(RangeTree)(r), One(DataArgumentTree)(x)])
    case ObjectPropertyAtom(p, x, y) =>
      Tree(143, [One(PropertyTree)(p), One(IndividualArgumentTree)(x), One(IndividualArgumentTree)(y)])
    case DataPropertyAtom(iri, x, y) =>
      Tree(144, [One(DataName())(iri), One(IndividualArgumentTree)(x), One(DataArgumentTree)(y)])
    case BuiltInAtom(iri, xs) => Tree(145, [One(IriTree)(iri), Sequence(DataArgumentTree)(xs)])
    case SameIndividualAtom(x, y) => Tree(146, [One(IndividualArgumentTree)(x), One(IndividualArgumentTree)(y)])
    case DifferentIndividualsAtom(x, y) => Tree(147, [One(IndividualArgumentTree)(x), One(IndividualArgumentTree)(y)])
  }

  // ---------- Axioms ----------

  function CharacteristicTag(c: Characteristic): nat {
    match c
    case Functional => 76
    case InverseFunctional => 77
    case Reflexive => 78
    case Irreflexive => 79
    case Symmetric => 80
    case Asymmetric => 81
    case Transitive => 82
  }

  function StatementTag(s: Statement): nat {
    match s
    case Declaration(_) => 60
    case SubClassOf(_, _) => 61
    case EquivalentClasses(_) => 62
    case DisjointClasses(_) => 63
    case DisjointUnion(_, _) => 64
    case SubObjectPropertyOf(_, _) => 70
    case EquivalentObjectProperties(_) => 71
    case DisjointObjectProperties(_) => 72
    case InverseObjectProperties(_, _) => 73
    case ObjectPropertyDomain(_, _) => 74
    case ObjectPropertyRange(_, _) => 75
    case ObjectPropertyIs(c, _) => CharacteristicTag(c)
    case SubDataPropertyOf(_, _) => 90
    case EquivalentDataProperties(_) => 91
    case DisjointDataProperties(_) => 92
    case DataPropertyDomain(_, _) => 93
    case DataPropertyRange(_, _) => 94
    case FunctionalDataProperty(_) => 95
    case DatatypeDefinition(_, _) => 100
    case HasKey(_, _, _) => 101
    case SameIndividual(_) => 110
    case DifferentIndividuals(_) => 111
    case ClassAssertion(_, _) => 112
    case ObjectPropertyAssertion(_, _, _) => 113
    case NegativeObjectPropertyAssertion(_, _, _) => 114
    case DataPropertyAssertion(_, _, _) => 115
    case NegativeDataPropertyAssertion(_, _, _) => 116
    case AnnotationAssertion(_, _, _) => 120
    case SubAnnotationPropertyOf(_, _) => 121
    case AnnotationPropertyDomain(_, _) => 122
    case AnnotationPropertyRange(_, _) => 123
  }

  ghost function Names(kind: Rows.EntityKind): Text -> Tree {
    (iri: Text) => EntityTree(kind, iri)
  }

  ghost function EntityOf(e: Entity): Tree { EntityTree(e.kind, e.iri) }

  ghost function AnnotationName(): Text -> Tree { Names(Rows.AnnotationPropertyEntity) }

  ghost function StatementFields(s: Statement): seq<Argument> {
    match s
    case Declaration(e) => [One(EntityOf)(e)]
    case SubClassOf(c, d) => [One(ClassTree)(c), One(ClassTree)(d)]
    case EquivalentClasses(cs) => [Set(ClassTree)(cs)]
    case DisjointClasses(cs) => [Set(ClassTree)(cs)]
    case DisjointUnion(iri, cs) => [One(Names(Rows.ClassEntity))(iri), Set(ClassTree)(cs)]
    case SubObjectPropertyOf(p, q) => [One(SubPropertyTree)(p), One(PropertyTree)(q)]
    case EquivalentObjectProperties(ps) => [Set(PropertyTree)(ps)]
    case DisjointObjectProperties(ps) => [Set(PropertyTree)(ps)]
    case InverseObjectProperties(p, q) => [One(PropertyTree)(p), One(PropertyTree)(q)]
    case ObjectPropertyDomain(p, c) => [One(PropertyTree)(p), One(ClassTree)(c)]
    case ObjectPropertyRange(p, c) => [One(PropertyTree)(p), One(ClassTree)(c)]
    case ObjectPropertyIs(_, p) => [One(PropertyTree)(p)]
    case SubDataPropertyOf(iri, iri') => [One(DataName())(iri), One(DataName())(iri')]
    case EquivalentDataProperties(iris) => [Set(DataName())(iris)]
    case DisjointDataProperties(iris) => [Set(DataName())(iris)]
    case DataPropertyDomain(iri, c) => [One(DataName())(iri), One(ClassTree)(c)]
    case DataPropertyRange(iri, r) => [One(DataName())(iri), One(RangeTree)(r)]
    case FunctionalDataProperty(iri) => [One(DataName())(iri)]
    case DatatypeDefinition(iri, r) => [One(Names(Rows.DatatypeEntity))(iri), One(RangeTree)(r)]
    case HasKey(c, ps, iris) => [One(ClassTree)(c), Set(PropertyTree)(ps), Set(DataName())(iris)]
    case SameIndividual(xs) => [Set(IndividualTree)(xs)]
    case DifferentIndividuals(xs) => [Set(IndividualTree)(xs)]
    case ClassAssertion(c, i) => [One(ClassTree)(c), One(IndividualTree)(i)]
    case ObjectPropertyAssertion(p, i, j) => [One(PropertyTree)(p), One(IndividualTree)(i), One(IndividualTree)(j)]
    case NegativeObjectPropertyAssertion(p, i, j) =>
      [One(PropertyTree)(p), One(IndividualTree)(i), One(IndividualTree)(j)]
    case DataPropertyAssertion(iri, i, l) => [One(DataName())(iri), One(IndividualTree)(i), One(LiteralTree)(l)]
    case NegativeDataPropertyAssertion(iri, i, l) =>
      [One(DataName())(iri), One(IndividualTree)(i), One(LiteralTree)(l)]
    case AnnotationAssertion(iri, x, v) => [One(AnnotationName())(iri), One(SubjectTree)(x), One(ValueTree)(v)]
    case SubAnnotationPropertyOf(iri, iri') => [One(AnnotationName())(iri), One(AnnotationName())(iri')]
    case AnnotationPropertyDomain(iri, iri') => [One(AnnotationName())(iri), One(IriTree)(iri')]
    case AnnotationPropertyRange(iri, iri') => [One(AnnotationName())(iri), One(IriTree)(iri')]
  }

  // ---------- Items ----------

  ghost function AxiomTree(s: Statement, annotations: set<Annotation>): Tree {
    Tree(StatementTag(s), StatementFields(s) + [Set(AnnotationTree)(annotations)])
  }

  ghost function RuleTree(body: set<Atom>, head: set<Atom>, annotations: set<Annotation>): Tree {
    Tree(148, [Set(AtomTree)(body), Set(AtomTree)(head), Set(AnnotationTree)(annotations)])
  }

  /** The root an item of an ontology is encoded as. */
  ghost function ItemRoot(item: Item): Uniqueness.Root {
    match item
    case OntologyAnnotation(a) => Uniqueness.Root(1, AnnotationTree(a))
    case Axiom(s, annotations) => Uniqueness.Root(2, AxiomTree(s, annotations))
    case Rule(body, head, annotations) => Uniqueness.Root(3, RuleTree(body, head, annotations))
  }
}
